/**
  Shared vocabulary of the model: optional values, the HTTP status codes the
  handlers answer with, and the first-match search used to look documents up
  in a collection. Collections are kept as sequences in insertion order, which
  is the natural order a database scan returns them in.
 */
module Common {

  datatype Option<T> = None | Some(value: T)

  /** A JavaScript `Date` value, in milliseconds since the epoch. */
  type Millis = int

  type Status = int

  const Ok: Status := 200
  const Created: Status := 201
  const BadRequest: Status := 400
  const Unauthorized: Status := 401
  const Forbidden: Status := 403
  const NotFound: Status := 404
  const ServerError: Status := 500

  /** Largest magnitude a JavaScript `Date` can hold (section 21.4.1.1 of ECMA-262);
      beyond it `new Date(t)` is an Invalid Date. */
  const MaxDateMillis: int := 8_640_000_000_000_000

  predicate ValidDate(t: int) {
    -MaxDateMillis <= t <= MaxDateMillis
  }

  /** A JavaScript string is truthy when it is present and not empty. */
  predicate Truthy(v: Option<string>) { v.Some? && v.value != "" }

  /** Index of the first element satisfying `p`, as `findOne` returns the first match. */
  function IndexWhere<T>(s: seq<T>, p: T -> bool): (r: Option<nat>)
    ensures r.Some? ==> r.value < |s| && p(s[r.value])
    ensures r.Some? ==> forall j :: 0 <= j < r.value ==> !p(s[j])
    ensures r.None? <==> forall j :: 0 <= j < |s| ==> !p(s[j])
  {
    if |s| == 0 then None
    else if p(s[0]) then Some(0)
    else
      match IndexWhere(s[1..], p)
      case None => None
      case Some(k) => Some(k + 1)
  }

  /** The elements of `s` satisfying `p`, in their original order. */
  function Filter<T(!new)>(s: seq<T>, p: T -> bool): (r: seq<T>)
    ensures |r| <= |s|
    ensures forall i :: 0 <= i < |r| ==> p(r[i]) && r[i] in s
  {
    if |s| == 0 then []
    else (if p(s[0]) then [s[0]] else []) + Filter(s[1..], p)
  }

  /** Filtering keeps every selected element as often as it occurs, and drops
      every other. */
  lemma {:induction false} FilterMultiset<T(!new)>(s: seq<T>, p: T -> bool)
    ensures forall x :: multiset(Filter(s, p))[x] == if p(x) then multiset(s)[x] else 0
  {
    if |s| > 0 {
      FilterMultiset(s[1..], p);
      assert s == [s[0]] + s[1..];
    }
  }

  lemma {:induction false} FilterAppend<T(!new)>(s: seq<T>, x: T, p: T -> bool)
    ensures Filter(s + [x], p) == Filter(s, p) + (if p(x) then [x] else [])
  {
    var tail := if p(x) then [x] else [];
    if |s| == 0 {
      assert s + [x] == [x];
      assert [x][1..] == [];
    } else {
      var head := if p(s[0]) then [s[0]] else [];
      assert (s + [x])[0] == s[0];
      assert (s + [x])[1..] == s[1..] + [x];
      FilterAppend(s[1..], x, p);
      assert Filter(s + [x], p) == head + (Filter(s[1..], p) + tail);
      assert Filter(s, p) == head + Filter(s[1..], p);
    }
  }

  lemma FilterMembership<T(!new)>(s: seq<T>, p: T -> bool, x: T)
    ensures x in Filter(s, p) <==> x in s && p(x)
  {
    FilterMultiset(s, p);
    assert x in Filter(s, p) <==> multiset(Filter(s, p))[x] > 0;
    assert x in s <==> multiset(s)[x] > 0;
  }
}
