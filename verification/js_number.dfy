/**
  `parseInt` without a radix (section 19.2.5 of ECMA-262) and the `x || d`
  idiom that replaces a falsy result (NaN or zero) by a default. Only the
  integer value matters to the callers; NaN is `None`.
 */
module JsNumber {
  import opened Common
  import opened Text

  /** Length of the longest prefix of `s` made of characters satisfying `p`. */
  function PrefixLen(s: string, p: char -> bool): (n: nat)
    ensures n <= |s|
    ensures forall i :: 0 <= i < n ==> p(s[i])
    ensures n < |s| ==> !p(s[n])
  {
    if |s| == 0 || !p(s[0]) then 0 else 1 + PrefixLen(s[1..], p)
  }

  function HexDigitValue(c: char): (v: nat)
    requires IsHexDigit(c)
    ensures v < 16
  {
    if IsDigit(c) then c as int - '0' as int
    else if 'a' <= c <= 'f' then c as int - 'a' as int + 10
    else c as int - 'A' as int + 10
  }

  function HexValue(s: string): nat
    requires AllChars(s, IsHexDigit)
  {
    if |s| == 0 then 0 else HexValue(s[..|s| - 1]) * 16 + HexDigitValue(s[|s| - 1])
  }

  /** `parseInt(s)`: leading whitespace skipped, one optional sign, a `0x`/`0X`
      prefix switching to base 16, then the longest run of digits; NaN when
      that run is empty. */
  function ParseInt(s: string): (r: Option<int>)
    ensures r.Some? ==> var t := TrimStart(s); |t| > 0 && (IsDigit(t[0]) || t[0] == '-' || t[0] == '+')
  {
    var t := TrimStart(s);
    var negative := |t| > 0 && t[0] == '-';
    var u := if |t| > 0 && (t[0] == '-' || t[0] == '+') then t[1..] else t;
    if |u| >= 2 && u[0] == '0' && (u[1] == 'x' || u[1] == 'X') then
      var h := u[2..][..PrefixLen(u[2..], IsHexDigit)];
      var v: int := if h == [] then 0 else HexValue(h);
      if h == [] then None else Some(if negative then -v else v)
    else
      var d := u[..PrefixLen(u, IsDigit)];
      var v: int := if d == [] then 0 else DecimalValue(d);
      if d == [] then None else Some(if negative then -v else v)
  }

  /** `n || d` for a parsed number: NaN and zero are falsy. */
  function OrDefault(n: Option<int>, d: int): (r: int)
    ensures r == d || (n.Some? && r == n.value && r != 0)
    ensures n.Some? && n.value != 0 ==> r == n.value
  {
    if n.Some? && n.value != 0 then n.value else d
  }

  /** `parseInt` reads back what `toString` wrote. */
  lemma {:induction false} ParseIntRoundTrip(n: nat)
    ensures ParseInt(NatToString(n)) == Some(n)
  {
    var s := NatToString(n);
    assert LeadingSpaces(s) == 0;
    assert TrimStart(s) == s;
    DigitsPrefix(s);
  }

  /** ... and the same with a minus sign in front. */
  lemma {:induction false} ParseIntNegativeRoundTrip(n: nat)
    ensures ParseInt("-" + NatToString(n)) == Some(-(n as int))
  {
    var s := NatToString(n);
    var m := "-" + s;
    assert LeadingSpaces(m) == 0;
    assert TrimStart(m) == m;
    assert m[1..] == s;
    DigitsPrefix(s);
  }

  lemma DigitsPrefix(s: string)
    requires AllChars(s, IsDigit)
    ensures PrefixLen(s, IsDigit) == |s| && s[..PrefixLen(s, IsDigit)] == s
  {
    if |s| > 0 {
      DigitsPrefix(s[1..]);
    }
  }
}
