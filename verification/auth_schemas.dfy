/**
  The client's form schemas for login, registration and password reset
  (src/validations/authSchemas.ts). A schema is modelled by the set of fields
  it reports an issue on; the form is accepted when that set is empty. Every
  check of every field runs, and an object-level refinement runs as well, its
  issue attached to the field it names. Email format is a parameter.
 */
module AuthSchemas {
  import opened Common
  import opened Text
  import opened UserModel

  datatype Field =
    | Email | Password | Username | ConfirmPassword | AcceptTerms | Token
    | CurrentPassword | NewPassword | ConfirmNewPassword | Bio | Language

  /** Username rule of the client: 3 to 30 characters from `[a-zA-Z0-9_-]`,
      with no trimming. */
  predicate ClientUsernameValid(u: string) {
    3 <= |u| <= 30 && AllChars(u, UsernameChar)
  }

  /** Up to the first line terminator: the reach of a regular-expression `.*`
      started at the beginning of the input. */
  function FirstLine(s: string): (r: string)
    ensures |r| <= |s| && r == s[..|r|]
    ensures forall i :: 0 <= i < |r| ==> !IsLineTerminator(r[i])
    ensures |r| < |s| ==> IsLineTerminator(s[|r|])
  {
    if |s| == 0 || IsLineTerminator(s[0]) then [] else [s[0]] + FirstLine(s[1..])
  }

  /** The client's password pattern: four lookaheads, each satisfied within
      the first line, and one allowed character at the start. Nothing is
      required of the rest of the string, since the pattern has no end anchor. */
  predicate ClientPasswordPattern(p: string) {
    && |p| >= 1 && PasswordChar(p[0])
    && HasChar(FirstLine(p), IsLower)
    && HasChar(FirstLine(p), IsUpper)
    && HasChar(FirstLine(p), IsDigit)
    && HasChar(FirstLine(p), PasswordSpecial)
  }

  /** At least 8 characters and the pattern. */
  predicate ClientPasswordValid(p: string) {
    |p| >= 8 && ClientPasswordPattern(p)
  }

  function LoginErrors(email: string, password: string, isEmail: string -> bool): (errs: set<Field>)
    ensures errs <= {Email, Password}
    ensures Email in errs <==> email == "" || !isEmail(email)
    ensures Password in errs <==> password == ""
  {
    (if email == "" || !isEmail(email) then {Email} else {})
    + (if password == "" then {Password} else {})
  }

  function ForgotErrors(email: string, isEmail: string -> bool): (errs: set<Field>)
    ensures errs <= {Email}
    ensures Email in errs <==> email == "" || !isEmail(email)
  {
    if email == "" || !isEmail(email) then {Email} else {}
  }

  function RegisterErrors(username: string, email: string, password: string, confirm: string,
                          acceptTerms: bool, isEmail: string -> bool): (errs: set<Field>)
    ensures errs <= {Username, Email, Password, ConfirmPassword, AcceptTerms}
    ensures Username in errs <==> !ClientUsernameValid(username)
    ensures Email in errs <==> email == "" || !isEmail(email)
    ensures Password in errs <==> !ClientPasswordValid(password)
    ensures ConfirmPassword in errs <==> confirm == "" || password != confirm
    ensures AcceptTerms in errs <==> !acceptTerms
  {
    (if !ClientUsernameValid(username) then {Username} else {})
    + (if email == "" || !isEmail(email) then {Email} else {})
    + (if !ClientPasswordValid(password) then {Password} else {})
    + (if confirm == "" then {ConfirmPassword} else {})
    + (if !acceptTerms then {AcceptTerms} else {})
    + (if password != confirm then {ConfirmPassword} else {})
  }

  function ResetErrors(password: string, confirm: string, token: string): (errs: set<Field>)
    ensures errs <= {Password, ConfirmPassword, Token}
    ensures Password in errs <==> !ClientPasswordValid(password)
    ensures ConfirmPassword in errs <==> confirm == "" || password != confirm
    ensures Token in errs <==> token == ""
  {
    (if !ClientPasswordValid(password) then {Password} else {})
    + (if confirm == "" then {ConfirmPassword} else {})
    + (if token == "" then {Token} else {})
    + (if password != confirm then {ConfirmPassword} else {})
  }

  // ------------------------------------------------------------ properties

  /** An accepted registration form has matching passwords, accepted terms and
      a password meeting the client's rule. */
  lemma RegisterAccepted(username: string, email: string, password: string, confirm: string,
                         acceptTerms: bool, isEmail: string -> bool)
    requires RegisterErrors(username, email, password, confirm, acceptTerms, isEmail) == {}
    ensures password == confirm && acceptTerms && ClientPasswordValid(password) && ClientUsernameValid(username)
  {
    assert ConfirmPassword !in RegisterErrors(username, email, password, confirm, acceptTerms, isEmail);
  }

  /** Registration and reset judge a password and its confirmation alike. */
  lemma RegisterAndResetAgreeOnPasswords(username: string, email: string, password: string, confirm: string,
                                         acceptTerms: bool, isEmail: string -> bool, token: string)
    ensures var r := RegisterErrors(username, email, password, confirm, acceptTerms, isEmail);
      var s := ResetErrors(password, confirm, token);
      (Password in r <==> Password in s) && (ConfirmPassword in r <==> ConfirmPassword in s)
  {
  }

  /** Login, forgotten-password and registration forms judge an e-mail
      alike, so an address one form accepts no other refuses. */
  lemma EmailRuleShared(email: string, password: string, username: string, confirm: string,
                        acceptTerms: bool, isEmail: string -> bool)
    ensures Email in LoginErrors(email, password, isEmail) <==> Email in ForgotErrors(email, isEmail)
    ensures Email in ForgotErrors(email, isEmail)
      <==> Email in RegisterErrors(username, email, password, confirm, acceptTerms, isEmail)
    ensures LoginErrors(email, password, isEmail) == {} ==> ForgotErrors(email, isEmail) == {}
  {
  }

  /** The client admits usernames of 21 to 30 characters that the server's
      schema refuses. */
  lemma {:induction false} ClientAcceptsLongerUsernames(u: string)
    requires 21 <= |u| <= 30 && AllChars(u, UsernameChar)
    ensures ClientUsernameValid(u)
    ensures !UsernameValid(StoredUsername(u))
  {
    assert AllChars(u, c => !IsSpace(c)) by {
      forall i | 0 <= i < |u| ensures !IsSpace(u[i]) { assert UsernameChar(u[i]); }
    }
    assert StoredUsername(u) == u;
  }

  /** For a name without surrounding whitespace, the server's username rule
      implies the client's. */
  lemma {:induction false} ServerUsernameImpliesClient(u: string)
    requires UsernameValid(StoredUsername(u))
    requires AllChars(u, c => !IsSpace(c))
    ensures ClientUsernameValid(u)
  {
    assert StoredUsername(u) == u;
  }

  /** The server trims a username before checking it; the client does not, so
      a name with a leading space passes only on the server. */
  lemma LeadingSpaceServerOnly()
    ensures UsernameValid(StoredUsername(" bob"))
    ensures !ClientUsernameValid(" bob")
  {
    assert LeadingSpaces(" bob") == 1;
    assert TrimStart(" bob") == "bob";
    assert TrailingSpaces("bob") == 0;
    assert Trim(" bob") == "bob";
    assert !UsernameChar(" bob"[0]);
  }

  lemma {:induction false} FirstLineOfSingleLine(s: string)
    requires forall i :: 0 <= i < |s| ==> !IsLineTerminator(s[i])
    ensures FirstLine(s) == s
  {
    if |s| > 0 {
      FirstLineOfSingleLine(s[1..]);
      assert s == [s[0]] + s[1..];
    }
  }

  /** Every password the server's anchored pattern accepts, the client's
      unanchored one accepts too. */
  lemma {:induction false} ServerPasswordImpliesClient(p: string)
    requires PasswordValid(p)
    ensures ClientPasswordValid(p)
  {
    FirstLineOfSingleLine(p);
  }

  /** ... but not the other way round: a trailing space is refused by the
      server and goes unnoticed by the client. */
  lemma {:induction false} ClientOnlyPassword()
    ensures ClientPasswordValid("Aa1@aaa ")
    ensures !PasswordValid("Aa1@aaa ")
  {
    var p := "Aa1@aaa ";
    FirstLineOfSingleLine(p);
    assert IsLower(p[1]) && IsUpper(p[0]) && IsDigit(p[2]) && PasswordSpecial(p[3]);
    assert !PasswordChar(p[7]);
  }
}
