/**
  Registration, login and logout (server/src/controllers/authController.ts)
  over the user collection. Token signing, password hashing and comparison,
  and the email validator are parameters: they are library calls whose
  behaviour the model does not restate.

  The lookups go through the schema's setters, so a query compares the
  trimmed username and the trimmed, lower-cased email with the stored ones.
  A field missing from the request matches no stored user, since every
  stored user has both fields.
 */
module AuthController {
  import opened Common
  import opened Text
  import opened UserModel

  /** The user part of a successful answer: no password, no flags. */
  datatype PublicUser = PublicUser(id: UserId, username: string, email: string)

  function Public(a: Account): PublicUser {
    PublicUser(a.id, a.username, a.email)
  }

  datatype AuthBody = Session(token: string, user: PublicUser) | Message(message: string)

  datatype AuthResponse = AuthResponse(status: Status, body: AuthBody)

  const DuplicateText := "Un utilisateur avec cet email ou ce nom d'utilisateur existe déjà"
  const BadCredentials := "Email ou mot de passe incorrect"
  const NotAuthenticated := "Utilisateur non authentifié"
  const LoggedOut := "Déconnexion réussie"
  const ServerErrorText := "Erreur serveur"

  /** No two users share an id, an email or a username. */
  predicate UniqueUsers(users: seq<Account>) {
    forall i, j :: 0 <= i < j < |users| ==>
      users[i].id != users[j].id && users[i].email != users[j].email && users[i].username != users[j].username
  }

  /** The `$or` duplicate lookup: same email or same username. */
  predicate Clashes(a: Account, username: Option<string>, email: Option<string>) {
    || (email.Some? && a.email == StoredEmail(email.value))
    || (username.Some? && a.username == StoredUsername(username.value))
  }

  /** `findOne({ email })`: the first user holding the normalised email. */
  function FindByEmail(users: seq<Account>, email: Option<string>): (r: Option<nat>)
    ensures r.Some? ==> email.Some? && r.value < |users| && users[r.value].email == StoredEmail(email.value)
    ensures r.Some? ==> forall j :: 0 <= j < r.value ==> users[j].email != StoredEmail(email.value)
    ensures r.None? <==> email.None? || forall j :: 0 <= j < |users| ==> users[j].email != StoredEmail(email.value)
  {
    if email.None? then None
    else IndexWhere(users, (a: Account) => a.email == StoredEmail(email.value))
  }

  /** Everything the new document needs to pass validation. */
  predicate RegistrationValid(username: Option<string>, email: Option<string>, password: Option<string>,
                              isEmail: string -> bool)
  {
    username.Some? && email.Some? && password.Some?
    && NewUserValid(username.value, email.value, password.value, isEmail)
  }

  /** register: the duplicate check first (400), then the document's
      validators and the id's uniqueness (500 on failure), then one new,
      offline, plain-role user and 201 with its public fields. */
  function Register(users: seq<Account>, username: Option<string>, email: Option<string>,
                    password: Option<string>, newId: UserId, hash: string -> string,
                    sign: UserId -> string, isEmail: string -> bool, now: Millis): (r: (AuthResponse, seq<Account>))
    ensures r.0.status in {Created, BadRequest, ServerError}
    ensures r.0.status != Created ==> r.1 == users
    ensures r.0.status == BadRequest <==> exists j :: 0 <= j < |users| && Clashes(users[j], username, email)
    ensures r.0.status == BadRequest ==> r.0.body == Message(DuplicateText)
    ensures r.0.status == Created <==>
      && (forall j :: 0 <= j < |users| ==> !Clashes(users[j], username, email))
      && RegistrationValid(username, email, password, isEmail)
      && (forall j :: 0 <= j < |users| ==> users[j].id != newId)
    ensures r.0.status == Created ==>
      && |r.1| == |users| + 1 && r.1[..|users|] == users
      && r.1[|users|] == NewAccount(newId, username.value, email.value, hash(password.value), now)
      && r.0.body == Session(sign(newId), PublicUser(newId, StoredUsername(username.value), StoredEmail(email.value)))
  {
    if IndexWhere(users, (a: Account) => Clashes(a, username, email)).Some? then
      (AuthResponse(BadRequest, Message(DuplicateText)), users)
    else if !RegistrationValid(username, email, password, isEmail) then
      (AuthResponse(ServerError, Message(ServerErrorText)), users)
    else if FindUser(users, newId).Some? then
      (AuthResponse(ServerError, Message(ServerErrorText)), users)
    else
      var a := NewAccount(newId, username.value, email.value, hash(password.value), now);
      assert (users + [a])[..|users|] == users;
      (AuthResponse(Created, Session(sign(newId), Public(a))), users + [a])
  }

  /** login, as intended: unknown email, missing password and wrong password
      give the same 401; a match puts that one user online. */
  function Login(users: seq<Account>, email: Option<string>, password: Option<string>,
                 compare: (string, string) -> bool, sign: UserId -> string, now: Millis): (r: (AuthResponse, seq<Account>))
    ensures r.0.status in {Ok, Unauthorized}
    ensures r.0.status == Unauthorized ==> r.0 == AuthResponse(Unauthorized, Message(BadCredentials)) && r.1 == users
    ensures r.0.status == Ok <==>
      FindByEmail(users, email).Some? && password.Some?
      && compare(password.value, users[FindByEmail(users, email).value].passwordHash)
    ensures r.0.status == Ok ==>
      var i := FindByEmail(users, email).value;
      && |r.1| == |users|
      && r.1[i] == users[i].(isOnline := true, lastSeen := now)
      && (forall j :: 0 <= j < |users| && j != i ==> r.1[j] == users[j])
      && r.0.body == Session(sign(users[i].id), Public(users[i]))
  {
    match FindByEmail(users, email)
    case None => (AuthResponse(Unauthorized, Message(BadCredentials)), users)
    case Some(i) =>
      if password.None? || !compare(password.value, users[i].passwordHash) then
        (AuthResponse(Unauthorized, Message(BadCredentials)), users)
      else
        var u := users[i].(isOnline := true, lastSeen := now);
        (AuthResponse(Ok, Session(sign(u.id), Public(u))), users[i := u])
  }

  /** login as the handler is written. Two paths end in the catch with a 500
      and no change. A known e-mail without a password: `comparePassword`
      returns the bcrypt promise unawaited, so its own catch does not see
      the rejection for a non-string argument and the handler's does. And a
      matching password: the document is loaded with its hash and `save()`
      re-runs the validators of every loaded field before the token is
      signed, so a stored value that fails them (the bcrypt hash against the
      password pattern) fails the save. Validators of e-mail and avatar URL
      are oracles. */
  function LoginAsWritten(users: seq<Account>, email: Option<string>, password: Option<string>,
                          compare: (string, string) -> bool, sign: UserId -> string,
                          isEmail: string -> bool, isUrl: string -> bool, now: Millis): (r: (AuthResponse, seq<Account>))
    ensures r.0.status in {Ok, Unauthorized, ServerError}
    ensures r.0.status == ServerError <==>
      FindByEmail(users, email).Some?
      && (password.None?
          || (Login(users, email, password, compare, sign, now).0.status == Ok
              && !LoadedValid(users[FindByEmail(users, email).value], isEmail, isUrl)))
    ensures r.0.status == ServerError ==> r == (AuthResponse(ServerError, Message(ServerErrorText)), users)
    ensures r.0.status != ServerError ==> r == Login(users, email, password, compare, sign, now)
  {
    match FindByEmail(users, email)
    case None => (AuthResponse(Unauthorized, Message(BadCredentials)), users)
    case Some(i) =>
      if password.None? then (AuthResponse(ServerError, Message(ServerErrorText)), users)
      else if !compare(password.value, users[i].passwordHash) then
        (AuthResponse(Unauthorized, Message(BadCredentials)), users)
      else if !LoadedValid(users[i], isEmail, isUrl) then
        (AuthResponse(ServerError, Message(ServerErrorText)), users)
      else
        var u := users[i].(isOnline := true, lastSeen := now);
        (AuthResponse(Ok, Session(sign(u.id), Public(u))), users[i := u])
  }

  /** logout: an absent or empty user id is a 401; otherwise the user, if it
      exists, goes offline. An id that finds no user still answers 200. */
  function Logout(users: seq<Account>, caller: Option<UserId>, now: Millis): (r: (AuthResponse, seq<Account>))
    ensures r.0.status in {Ok, Unauthorized}
    ensures r.0.status == Unauthorized <==> caller.None? || caller.value == ""
    ensures r.0.status == Unauthorized ==> r.0.body == Message(NotAuthenticated) && r.1 == users
    ensures r.0.status == Ok ==> r.0.body == Message(LoggedOut) && |r.1| == |users|
    ensures r.0.status == Ok ==> forall j :: 0 <= j < |users| ==>
      r.1[j] == if users[j].id == caller.value && FindUser(users, caller.value) == Some(j)
                then users[j].(isOnline := false, lastSeen := now) else users[j]
  {
    if caller.None? || caller.value == "" then (AuthResponse(Unauthorized, Message(NotAuthenticated)), users)
    else match FindUser(users, caller.value)
      case None => (AuthResponse(Ok, Message(LoggedOut)), users)
      case Some(i) => (AuthResponse(Ok, Message(LoggedOut)), users[i := users[i].(isOnline := false, lastSeen := now)])
  }

  // ------------------------------------------------------------ properties

  /** Registration keeps ids, emails and usernames unique. */
  lemma {:induction false} RegisterPreservesUnique(users: seq<Account>, username: Option<string>, email: Option<string>,
                                                   password: Option<string>, newId: UserId, hash: string -> string,
                                                   sign: UserId -> string, isEmail: string -> bool, now: Millis)
    requires UniqueUsers(users)
    ensures UniqueUsers(Register(users, username, email, password, newId, hash, sign, isEmail, now).1)
  {
    var r := Register(users, username, email, password, newId, hash, sign, isEmail, now);
    if r.0.status == Created {
      var a := r.1[|users|];
      forall i, j | 0 <= i < j < |r.1|
        ensures r.1[i].id != r.1[j].id && r.1[i].email != r.1[j].email && r.1[i].username != r.1[j].username
      {
        if j == |users| {
          assert r.1[i] == users[i];
          assert !Clashes(users[i], username, email);
        } else {
          assert r.1[i] == users[i] && r.1[j] == users[j];
        }
      }
    }
  }

  /** A known e-mail sent without a password: the intended login refuses it
      with the 401 of bad credentials, the handler as written answers 500. */
  lemma MissingPasswordAsWritten(users: seq<Account>, email: Option<string>, compare: (string, string) -> bool,
                                 sign: UserId -> string, isEmail: string -> bool, isUrl: string -> bool, now: Millis)
    requires FindByEmail(users, email).Some?
    ensures Login(users, email, None, compare, sign, now) == (AuthResponse(Unauthorized, Message(BadCredentials)), users)
    ensures LoginAsWritten(users, email, None, compare, sign, isEmail, isUrl, now)
            == (AuthResponse(ServerError, Message(ServerErrorText)), users)
  {
  }

  /** Whoever the caller is, an unknown email and a wrong password are
      answered identically. */
  lemma LoginFailuresIndistinguishable(users: seq<Account>, unknown: string, known: string, p1: Option<string>,
                                       p2: string, compare: (string, string) -> bool,
                                       sign: UserId -> string, t1: Millis, t2: Millis)
    requires FindByEmail(users, Some(unknown)).None?
    requires FindByEmail(users, Some(known)).Some?
    requires !compare(p2, users[FindByEmail(users, Some(known)).value].passwordHash)
    ensures Login(users, Some(unknown), p1, compare, sign, t1).0 == Login(users, Some(known), Some(p2), compare, sign, t2).0
  {
  }

  /** A user who just registered can log in with the same email and password,
      given a comparison that accepts a password against its own hash. */
  lemma {:induction false} RegisterThenLogin(users: seq<Account>, username: string, email: string, password: string,
                                             newId: UserId, hash: string -> string, compare: (string, string) -> bool,
                                             sign: UserId -> string, isEmail: string -> bool, t1: Millis, t2: Millis)
    requires forall j :: 0 <= j < |users| ==> !Clashes(users[j], Some(username), Some(email))
    requires NewUserValid(username, email, password, isEmail)
    requires forall j :: 0 <= j < |users| ==> users[j].id != newId
    requires compare(password, hash(password))
    ensures Register(users, Some(username), Some(email), Some(password), newId, hash, sign, isEmail, t1).0.status == Created
    ensures var users1 := Register(users, Some(username), Some(email), Some(password), newId, hash, sign, isEmail, t1).1;
      var l := Login(users1, Some(email), Some(password), compare, sign, t2);
      && l.0.status == Ok
      && l.0.body.user.id == newId
      && l.1[|users|].isOnline
  {
    var users1 := Register(users, Some(username), Some(email), Some(password), newId, hash, sign, isEmail, t1).1;
    forall j | 0 <= j < |users| ensures users1[j].email != StoredEmail(email) {
      assert users1[j] == users[j];
      assert !Clashes(users[j], Some(username), Some(email));
    }
    assert users1[|users|].email == StoredEmail(email);
    assert FindByEmail(users1, Some(email)) == Some(|users|);
  }

  /** As written, a user who just registered cannot log in once the stored
      hash holds a `/` or a `.`, as bcrypt output almost always does: the
      correct password is answered with a 500 and nobody goes online. */
  lemma {:induction false} RegisterThenLoginAsWrittenFails(users: seq<Account>, username: string, email: string,
                                                           password: string, newId: UserId, hash: string -> string,
                                                           compare: (string, string) -> bool, sign: UserId -> string,
                                                           isEmail: string -> bool, isUrl: string -> bool,
                                                           t1: Millis, t2: Millis, k: nat)
    requires forall j :: 0 <= j < |users| ==> !Clashes(users[j], Some(username), Some(email))
    requires NewUserValid(username, email, password, isEmail)
    requires forall j :: 0 <= j < |users| ==> users[j].id != newId
    requires compare(password, hash(password))
    requires k < |hash(password)| && (hash(password)[k] == '/' || hash(password)[k] == '.')
    ensures var users1 := Register(users, Some(username), Some(email), Some(password), newId, hash, sign, isEmail, t1).1;
      LoginAsWritten(users1, Some(email), Some(password), compare, sign, isEmail, isUrl, t2)
      == (AuthResponse(ServerError, Message(ServerErrorText)), users1)
  {
    var users1 := Register(users, Some(username), Some(email), Some(password), newId, hash, sign, isEmail, t1).1;
    RegisterThenLogin(users, username, email, password, newId, hash, compare, sign, isEmail, t1, t2);
    var l := Login(users1, Some(email), Some(password), compare, sign, t2);
    assert l.0.status == Ok;
    var i := FindByEmail(users1, Some(email)).value;
    assert l.1[|users|].isOnline;
    assert i == |users|;
    HashFailsPasswordPattern(hash(password), k);
    assert !LoadedValid(users1[i], isEmail, isUrl);
  }

  /** Logging out after logging in leaves the user offline with the later
      time, and every other user as it was. */
  lemma {:induction false} LoginThenLogout(users: seq<Account>, email: Option<string>, password: Option<string>,
                                           compare: (string, string) -> bool, sign: UserId -> string,
                                           t1: Millis, t2: Millis)
    requires UniqueUsers(users)
    requires Login(users, email, password, compare, sign, t1).0.status == Ok
    ensures var i := FindByEmail(users, email).value;
      var id := users[i].id;
      id != "" ==>
        Logout(Login(users, email, password, compare, sign, t1).1, Some(id), t2).1
        == users[i := users[i].(isOnline := false, lastSeen := t2)]
  {
    var i := FindByEmail(users, email).value;
    var users1 := Login(users, email, password, compare, sign, t1).1;
    assert users1 == users[i := users[i].(isOnline := true, lastSeen := t1)];
    assert forall j :: 0 <= j < i ==> users1[j].id == users[j].id != users[i].id;
    assert FindUser(users1, users[i].id) == Some(i);
  }

  /** Two collections holding the same ids, emails and usernames in the same places. */
  predicate SameKeys(a: seq<Account>, b: seq<Account>) {
    |a| == |b| && forall j :: 0 <= j < |a| ==>
      a[j].id == b[j].id && a[j].email == b[j].email && a[j].username == b[j].username
  }

  lemma SameKeysUnique(a: seq<Account>, b: seq<Account>)
    requires UniqueUsers(a) && SameKeys(a, b)
    ensures UniqueUsers(b)
  {
  }

  /** Login changes no id, email or username, so uniqueness is kept. */
  lemma {:induction false} LoginPreservesUnique(users: seq<Account>, email: Option<string>, password: Option<string>,
                                                compare: (string, string) -> bool, sign: UserId -> string, now: Millis)
    requires UniqueUsers(users)
    ensures UniqueUsers(Login(users, email, password, compare, sign, now).1)
  {
    SameKeysUnique(users, Login(users, email, password, compare, sign, now).1);
  }

  /** Logout changes no id, email or username, so uniqueness is kept. */
  lemma {:induction false} LogoutPreservesUnique(users: seq<Account>, caller: Option<UserId>, now: Millis)
    requires UniqueUsers(users)
    ensures UniqueUsers(Logout(users, caller, now).1)
  {
    SameKeysUnique(users, Logout(users, caller, now).1);
  }
}
