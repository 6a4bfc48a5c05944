/**
  The user document (server/src/models/User.ts) together with the fields the
  moderation controller writes on it (`role`, `isBanned`, `banReason`,
  `bannedUntil`), and the schema's field validators and setters.
 */
module UserModel {
  import opened Common
  import opened Text

  type UserId = string

  /** Closed set of roles; admin > moderator > user. */
  datatype Role = User | Moderator | Admin

  datatype Account = Account(
    id: UserId,
    username: string,
    email: string,
    passwordHash: string,
    avatar: string,
    role: Role,
    isBanned: bool,
    banReason: Option<string>,
    bannedUntil: Option<Millis>,
    isOnline: bool,
    lastSeen: Millis)

  /** An account as `.select('-password')` returns it. */
  datatype UserView = UserView(
    id: UserId,
    username: string,
    email: string,
    avatar: string,
    role: Role,
    isBanned: bool,
    banReason: Option<string>,
    bannedUntil: Option<Millis>,
    isOnline: bool,
    lastSeen: Millis)

  function View(a: Account): (v: UserView)
    ensures v.id == a.id && v.username == a.username && v.email == a.email && v.role == a.role
    ensures v.isBanned == a.isBanned && v.banReason == a.banReason && v.bannedUntil == a.bannedUntil
    ensures v.avatar == a.avatar && v.isOnline == a.isOnline && v.lastSeen == a.lastSeen
  {
    UserView(a.id, a.username, a.email, a.avatar, a.role, a.isBanned, a.banReason,
             a.bannedUntil, a.isOnline, a.lastSeen)
  }

  /** Position of the account with this id, as `findById` finds it. */
  function FindUser(users: seq<Account>, id: UserId): (r: Option<nat>)
    ensures r.Some? ==> r.value < |users| && users[r.value].id == id
    ensures r.None? <==> forall j :: 0 <= j < |users| ==> users[j].id != id
  {
    IndexWhere(users, (u: Account) => u.id == id)
  }

  /** Rewriting a document in place keeps it where `findById` finds it. */
  lemma FindUserAfterUpdate(users: seq<Account>, i: nat, u: Account)
    requires FindUser(users, u.id) == Some(i)
    ensures FindUser(users[i := u], u.id) == Some(i)
  {
    assert users[i := u][i].id == u.id;
    assert forall j :: 0 <= j < i ==> users[i := u][j] == users[j];
  }

  predicate UniqueIds(users: seq<Account>) {
    forall i, j :: 0 <= i < j < |users| ==> users[i].id != users[j].id
  }

  lemma FindUserUnique(users: seq<Account>, i: nat)
    requires UniqueIds(users) && i < |users|
    ensures FindUser(users, users[i].id) == Some(i)
  {
  }

  /** Character class of `/^[a-zA-Z0-9_-]+$/`. */
  predicate UsernameChar(c: char) { IsAlnum(c) || c == '_' || c == '-' }

  /** The `trim` setter on `username`. */
  function StoredUsername(raw: string): string { Trim(raw) }

  /** The `trim` and `lowercase` setters on `email`. */
  function StoredEmail(raw: string): (e: string)
    ensures e == ToLower(Trim(raw))
    ensures forall i :: 0 <= i < |e| ==> !IsUpper(e[i])
  {
    ToLower(Trim(raw))
  }

  /** Lower-casing keeps the trimmed ends free of whitespace. */
  lemma {:induction false} StoredEmailTrimmed(raw: string)
    ensures Trim(StoredEmail(raw)) == StoredEmail(raw)
  {
    var t := Trim(raw);
    var e := StoredEmail(raw);
    assert |e| == |t| && forall k :: 0 <= k < |t| ==> e[k] == LowerChar(t[k]);
    TrimNoEdgeSpace(e);
  }

  /** `username` validators on the stored value: required, 3 to 20 characters,
      letters, digits, `_` and `-` only. */
  predicate UsernameValid(stored: string) {
    3 <= |stored| <= 20 && AllChars(stored, UsernameChar)
  }

  predicate PasswordSpecial(c: char) {
    c == '@' || c == '$' || c == '!' || c == '%' || c == '*' || c == '?' || c == '&'
  }

  predicate PasswordChar(c: char) { IsAlnum(c) || PasswordSpecial(c) }

  /** `password` validators: required, `minlength` 8, and the fully anchored
      pattern: one lower-case letter, one upper-case letter, one digit and one of
      `@$!%*?&`, every character drawn from those classes, at least 8 long. */
  predicate PasswordValid(p: string) {
    && |p| >= 8
    && AllChars(p, PasswordChar)
    && HasChar(p, IsLower)
    && HasChar(p, IsUpper)
    && HasChar(p, IsDigit)
    && HasChar(p, PasswordSpecial)
  }

  /** `avatar`: the empty string (the default) or a URL. */
  predicate AvatarValid(v: string, isUrl: string -> bool) {
    v == "" || isUrl(v)
  }

  /** All validators a new document runs before it is saved. The email
      validator is an oracle. */
  predicate NewUserValid(username: string, email: string, password: string, isEmail: string -> bool) {
    && UsernameValid(StoredUsername(username))
    && StoredEmail(email) != ""
    && isEmail(StoredEmail(email))
    && PasswordValid(password)
  }

  /** The validators `save()` re-runs on a document loaded with every field,
      the stored hash included: setters do not run again, so the stored
      values are checked as they are. */
  predicate LoadedValid(a: Account, isEmail: string -> bool, isUrl: string -> bool) {
    && UsernameValid(a.username)
    && a.email != ""
    && isEmail(a.email)
    && PasswordValid(a.passwordHash)
    && AvatarValid(a.avatar, isUrl)
  }

  /** A character of the bcrypt alphabet that the password pattern rejects
      fails the stored hash. */
  lemma {:induction false} HashFailsPasswordPattern(h: string, k: nat)
    requires k < |h| && (h[k] == '/' || h[k] == '.')
    ensures !PasswordValid(h)
  {
    assert !PasswordChar(h[k]);
  }

  /** A freshly created document: schema defaults (empty avatar, offline,
      `lastSeen` now), the plain role and no ban. */
  function NewAccount(id: UserId, username: string, email: string, passwordHash: string, now: Millis): (a: Account)
    ensures a.id == id && a.username == StoredUsername(username) && a.email == StoredEmail(email)
    ensures a.passwordHash == passwordHash && a.avatar == ""
    ensures a.role == User && !a.isBanned && a.banReason.None? && a.bannedUntil.None?
    ensures !a.isOnline && a.lastSeen == now
  {
    Account(id, StoredUsername(username), StoredEmail(email), passwordHash, "", User,
            false, None, None, false, now)
  }

  /** Every account that passes the validators holds a username of 3 to 20
      legal characters, a non-empty lower-case email, no whitespace at either
      end of either, and the hash it was given. */
  lemma {:induction false} NewAccountStoredValid(id: UserId, username: string, email: string, password: string,
                                                 hash: string, isEmail: string -> bool, now: Millis)
    requires NewUserValid(username, email, password, isEmail)
    ensures var a := NewAccount(id, username, email, hash, now);
      && UsernameValid(a.username)
      && a.username == Trim(a.username)
      && a.email != ""
      && a.email == Trim(a.email)
      && (forall k :: 0 <= k < |a.email| ==> !IsUpper(a.email[k]))
      && a.passwordHash == hash
  {
    var a := NewAccount(id, username, email, hash, now);
    TrimIdempotent(username);
    StoredEmailTrimmed(email);
  }
}
