/**
  The password strength meter of the registration form
  (src/components/auth/Register.tsx): five criteria are counted and the
  count mapped to a level, then to the French label shown under the field.
 */
module PasswordStrength {
  import opened Text
  import opened UserModel

  const Weak := "weak"
  const Medium := "medium"
  const Strong := "strong"

  predicate NotAlnum(c: char) { !IsAlnum(c) }

  /** One point each: 8 characters or more, an upper-case letter, a
      lower-case letter, a digit, anything else. */
  function Score(p: string): (n: nat)
    ensures n <= 5
  {
    (if |p| >= 8 then 1 else 0)
    + (if HasChar(p, IsUpper) then 1 else 0)
    + (if HasChar(p, IsLower) then 1 else 0)
    + (if HasChar(p, IsDigit) then 1 else 0)
    + (if HasChar(p, NotAlnum) then 1 else 0)
  }

  /** getPasswordStrength. The switch's default branch is unreachable, as a
      score never exceeds 5. */
  function Strength(p: string): (r: string)
    ensures r == "" <==> p == ""
    ensures r in {"", Weak, Medium, Strong}
    ensures p != "" ==> (r == Weak <==> Score(p) <= 1) && (r == Strong <==> Score(p) >= 4)
  {
    if p == "" then ""
    else
      var n := Score(p);
      if n <= 1 then Weak
      else if n <= 3 then Medium
      else if n <= 5 then Strong
      else ""
  }

  /** getPasswordStrengthText. */
  function StrengthText(p: string): (r: string)
    ensures r == "" <==> p == ""
    ensures Strength(p) == Weak <==> r == "Faible"
    ensures Strength(p) == Medium <==> r == "Moyen"
    ensures Strength(p) == Strong <==> r == "Fort"
  {
    var s := Strength(p);
    if s == Weak then "Faible"
    else if s == Medium then "Moyen"
    else if s == Strong then "Fort"
    else ""
  }

  function Rank(level: string): nat {
    if level == Weak then 1 else if level == Medium then 2 else if level == Strong then 3 else 0
  }

  // ------------------------------------------------------------ properties

  /** Every character falls in one of the four character classes, so a
      non-empty password scores at least one point. */
  lemma {:induction false} NonEmptyScores(p: string)
    requires p != ""
    ensures Score(p) >= 1
  {
    var c := p[0];
    if IsUpper(c) { assert HasChar(p, IsUpper); }
    else if IsLower(c) { assert HasChar(p, IsLower); }
    else if IsDigit(c) { assert HasChar(p, IsDigit); }
    else { assert HasChar(p, NotAlnum); }
  }

  /** Typing more characters never lowers the score. */
  lemma {:induction false} ScoreMonotone(p: string, q: string)
    ensures Score(p) <= Score(p + q)
  {
    HasCharAppend(p, q, IsUpper);
    HasCharAppend(p, q, IsLower);
    HasCharAppend(p, q, IsDigit);
    HasCharAppend(p, q, NotAlnum);
  }

  /** ... nor the level shown. */
  lemma {:induction false} StrengthMonotone(p: string, q: string)
    ensures Rank(Strength(p)) <= Rank(Strength(p + q))
  {
    ScoreMonotone(p, q);
    if p != "" {
      assert p + q != "" by { assert |p + q| >= |p|; }
    }
  }

  /** Every password the server accepts shows as strong. */
  lemma {:induction false} ServerValidIsStrong(p: string)
    requires PasswordValid(p)
    ensures Strength(p) == Strong && StrengthText(p) == "Fort"
  {
    var i :| 0 <= i < |p| && PasswordSpecial(p[i]);
    assert NotAlnum(p[i]);
    assert Score(p) == 5;
  }

  /** A short all-lower-case password is weak. */
  lemma {:induction false} ShortLowerCaseIsWeak(p: string)
    requires 0 < |p| < 8 && AllChars(p, IsLower)
    ensures Strength(p) == Weak
  {
    assert !HasChar(p, IsUpper) && !HasChar(p, IsDigit) && !HasChar(p, NotAlnum) by {
      forall i | 0 <= i < |p| ensures !IsUpper(p[i]) && !IsDigit(p[i]) && !NotAlnum(p[i]) {
        assert IsLower(p[i]);
      }
    }
  }
}
