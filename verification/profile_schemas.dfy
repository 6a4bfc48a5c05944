/**
  The client's profile form schema (src/validations/profileSchemas.ts). As
  for the authentication forms, a form is judged by the set of fields that
  get an issue. Password fields and the bio may be absent. The two
  object-level refinements run only when every field has the right type;
  a `language` outside the enumeration is a type failure and suppresses them.
  The three notification switches are booleans with no further rule and are
  not represented.
 */
module ProfileSchemas {
  import opened Common
  import opened AuthSchemas

  const MaxBio: nat := 500

  predicate LanguageValid(language: string) {
    language == "fr" || language == "en"
  }

  /** The per-field checks. */
  function FieldErrors(username: string, email: string, current: Option<string>, newPassword: Option<string>,
                       bio: Option<string>, language: string, isEmail: string -> bool): (errs: set<Field>)
    ensures errs <= {Username, Email, CurrentPassword, NewPassword, Bio, Language}
    ensures Username in errs <==> !ClientUsernameValid(username)
    ensures Email in errs <==> email == "" || !isEmail(email)
    ensures CurrentPassword in errs <==> Truthy(current) && |current.value| < 8
    ensures NewPassword in errs <==> Truthy(newPassword) && !ClientPasswordValid(newPassword.value)
    ensures Bio in errs <==> bio.Some? && |bio.value| > MaxBio
    ensures Language in errs <==> !LanguageValid(language)
  {
    set f | f in {Username, Email, CurrentPassword, NewPassword, Bio, Language}
              && FieldFails(f, username, email, current, newPassword, bio, language, isEmail)
  }

  predicate FieldFails(f: Field, username: string, email: string, current: Option<string>, newPassword: Option<string>,
                       bio: Option<string>, language: string, isEmail: string -> bool) {
    match f
    case Username => !ClientUsernameValid(username)
    case Email => email == "" || !isEmail(email)
    case CurrentPassword => Truthy(current) && |current.value| < 8
    case NewPassword => Truthy(newPassword) && (|newPassword.value| < 8 || !ClientPasswordPattern(newPassword.value))
    case Bio => bio.Some? && |bio.value| > MaxBio
    case Language => !LanguageValid(language)
    case _ => false
  }

  /** The two refinements: changing the password needs the current one, and
      a matching confirmation. */
  function RefinementErrors(current: Option<string>, newPassword: Option<string>,
                            confirm: Option<string>): (errs: set<Field>)
    ensures errs <= {CurrentPassword, ConfirmNewPassword}
    ensures !Truthy(newPassword) ==> errs == {}
    ensures Truthy(newPassword) ==>
      (CurrentPassword in errs <==> !Truthy(current)) && (ConfirmNewPassword in errs <==> confirm != newPassword)
  {
    (if Truthy(newPassword) && !Truthy(current) then {CurrentPassword} else {})
    + (if Truthy(newPassword) && newPassword != confirm then {ConfirmNewPassword} else {})
  }

  function ProfileErrors(username: string, email: string, current: Option<string>, newPassword: Option<string>,
                         confirm: Option<string>, bio: Option<string>, language: string,
                         isEmail: string -> bool): (errs: set<Field>)
    ensures FieldErrors(username, email, current, newPassword, bio, language, isEmail) <= errs
    ensures LanguageValid(language) ==> RefinementErrors(current, newPassword, confirm) <= errs
    ensures errs <= FieldErrors(username, email, current, newPassword, bio, language, isEmail)
                    + RefinementErrors(current, newPassword, confirm)
    ensures !LanguageValid(language) ==> errs == FieldErrors(username, email, current, newPassword, bio, language, isEmail)
  {
    FieldErrors(username, email, current, newPassword, bio, language, isEmail)
    + (if LanguageValid(language) then RefinementErrors(current, newPassword, confirm) else {})
  }

  // ------------------------------------------------------------ properties

  /** An accepted form that sets a new password also carries the current one
      (of 8 or more characters), an identical confirmation, and a new
      password meeting the registration rule. */
  lemma ProfileAcceptedPasswordChange(username: string, email: string, current: Option<string>, newPassword: Option<string>,
                                      confirm: Option<string>, bio: Option<string>, language: string,
                                      isEmail: string -> bool)
    requires ProfileErrors(username, email, current, newPassword, confirm, bio, language, isEmail) == {}
    requires Truthy(newPassword)
    ensures Truthy(current) && |current.value| >= 8
    ensures confirm == newPassword
    ensures ClientPasswordValid(newPassword.value)
  {
    var f := FieldErrors(username, email, current, newPassword, bio, language, isEmail);
    assert Language !in f && CurrentPassword !in f && NewPassword !in f;
    var g := RefinementErrors(current, newPassword, confirm);
    assert CurrentPassword !in g && ConfirmNewPassword !in g;
  }

  /** Leaving the new password empty means the password fields are never
      reported, whatever the other two hold, unless the current one is a
      non-empty string shorter than 8. */
  lemma NoPasswordChange(username: string, email: string, current: Option<string>,
                         confirm: Option<string>, bio: Option<string>, language: string,
                         isEmail: string -> bool)
    requires !Truthy(current) || |current.value| >= 8
    ensures var errs := ProfileErrors(username, email, current, None, confirm, bio, language, isEmail);
      CurrentPassword !in errs && NewPassword !in errs && ConfirmNewPassword !in errs
  {
  }

  /** With a language outside the enumeration the refinements are skipped: a
      form otherwise fine but with a mismatched confirmation reports only the
      language. */
  lemma BadLanguageHidesMismatch(username: string, email: string, current: Option<string>, newPassword: Option<string>,
                                 confirm: Option<string>, bio: Option<string>, language: string,
                                 isEmail: string -> bool)
    requires FieldErrors(username, email, current, newPassword, bio, language, isEmail) == {Language}
    ensures ProfileErrors(username, email, current, newPassword, confirm, bio, language, isEmail) == {Language}
  {
  }

  /** The profile form judges a new password exactly as the registration
      form judges its password. */
  lemma NewPasswordRuleMatchesRegistration(username: string, email: string, current: Option<string>, newPassword: Option<string>,
                                           confirm: Option<string>, bio: Option<string>, language: string,
                                           isEmail: string -> bool, confirmPassword: string, acceptTerms: bool)
    requires Truthy(newPassword)
    ensures NewPassword in ProfileErrors(username, email, current, newPassword, confirm, bio, language, isEmail)
        <==> Password in RegisterErrors(username, email, newPassword.value, confirmPassword, acceptTerms, isEmail)
  {
    var f := FieldErrors(username, email, current, newPassword, bio, language, isEmail);
    var g := RefinementErrors(current, newPassword, confirm);
    assert NewPassword !in g;
    assert NewPassword in f <==> !ClientPasswordValid(newPassword.value);
  }
}
