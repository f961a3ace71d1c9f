/** Vocabulary shared by the whole clinic model: keys, clock ticks, the caller,
    results and the error kinds the handlers raise, and small sequence and
    string helpers. */
module Common {

  /** A Guid key. 0 stands for Guid.Empty; every other value is an opaque key. */
  type Guid = nat
  const EmptyGuid: Guid := 0

  /** A DateTime as its tick count; 0 is default(DateTime). */
  type Ticks = nat
  const DefaultTicks: Ticks := 0

  datatype Option<T> = None | Some(value: T)

  /** The authenticated caller, passed explicitly: the NameIdentifier claim
      (absent for an anonymous caller) and the role claims. */
  datatype Principal = Principal(userId: Option<string>, roles: set<string>)

  const AdminRole: string := "Admin"

  predicate IsAdmin(p: Principal) {
    AdminRole in p.roles
  }

  /** One failed FluentValidation rule: (PropertyName, ErrorMessage). */
  datatype ValidationFailure = ValidationFailure(propertyName: string, errorMessage: string)

  /** The exception kinds that leave a handler, one constructor per kind the
      exception handler distinguishes. Unhandled stands for every other
      exception: a store constraint violation, a null dereference. */
  datatype Error =
    | ValidationFailed(failures: seq<ValidationFailure>)
    | KeyNotFound(message: string)
    | Unauthorized(message: string)
    | InvalidOperation(message: string)
    | InvalidArgument(message: string)
    | Unhandled(message: string)

  datatype Result<T> = Ok(value: T) | Err(error: Error)

  /** The interpolation $"{first} {last}" used by every DTO mapper. */
  function FullName(first: string, last: string): (r: string)
    ensures |r| == |first| + 1 + |last|
    ensures r[..|first|] == first && r[|first|] == ' ' && r[|first| + 1..] == last
  {
    first + " " + last
  }

  predicate IsDigit(c: char) {
    '0' <= c <= '9'
  }

  predicate AllDigits(s: string) {
    forall i :: 0 <= i < |s| ==> IsDigit(s[i])
  }

  /** char.IsWhiteSpace: the Unicode space separators, the line and
      paragraph separators, and U+0009..U+000D and U+0085. */
  predicate IsWhiteSpace(c: char) {
    || ('\U{0009}' <= c <= '\U{000D}')
    || c == ' ' || c == '\U{0085}' || c == '\U{00A0}' || c == '\U{1680}'
    || ('\U{2000}' <= c <= '\U{200A}')
    || c == '\U{2028}' || c == '\U{2029}' || c == '\U{202F}' || c == '\U{205F}' || c == '\U{3000}'
  }

  /** string.IsNullOrWhiteSpace on a non-null string: what NotEmpty() rejects. */
  predicate IsBlank(s: string) {
    forall i :: 0 <= i < |s| ==> IsWhiteSpace(s[i])
  }

  /** The decimal text of a key, used where a message interpolates a Guid. */
  function KeyText(n: nat): (r: string)
    ensures |r| > 0 && AllDigits(r)
  {
    if n < 10 then ["0123456789"[n]] else KeyText(n / 10) + ["0123456789"[n % 10]]
  }

  /** A key no element of t holds under `key`, and not Guid.Empty: what
      Guid.NewGuid() and EF's client-side key generation provide. */
  function FreshKey<T(!new)>(t: seq<T>, key: T -> Guid): (r: Guid)
    ensures r != EmptyGuid
    ensures forall x :: x in t ==> key(x) < r
  {
    if |t| == 0 then 1
    else
      var rest := FreshKey(t[1..], key);
      assert forall x :: x in t ==> x == t[0] || x in t[1..];
      if key(t[0]) < rest then rest else key(t[0]) + 1
  }

  /** No two rows of t share a key, and no row has Guid.Empty. */
  predicate UniqueKeys<T>(t: seq<T>, key: T -> Guid) {
    && (forall i, j :: 0 <= i < |t| && 0 <= j < |t| && i != j ==> key(t[i]) != key(t[j]))
    && (forall i :: 0 <= i < |t| ==> key(t[i]) != EmptyGuid)
  }

  /** Adding a row whose key is new and not Guid.Empty keeps keys unique. */
  lemma UniqueKeysAppend<T>(t: seq<T>, x: T, key: T -> Guid)
    requires UniqueKeys(t, key) && key(x) != EmptyGuid
    requires forall y :: y in t ==> key(y) != key(x)
    ensures UniqueKeys(t + [x], key)
  {
    var u := t + [x];
    forall i, j | 0 <= i < |u| && 0 <= j < |u| && i != j
      ensures key(u[i]) != key(u[j])
    {
      if i < |t| { assert u[i] == t[i]; }
      if j < |t| { assert u[j] == t[j]; }
    }
  }

  /** The same for a row put in front. */
  lemma UniqueKeysCons<T>(x: T, t: seq<T>, key: T -> Guid)
    requires UniqueKeys(t, key) && key(x) != EmptyGuid
    requires forall y :: y in t ==> key(y) != key(x)
    ensures UniqueKeys([x] + t, key)
  {
    var u := [x] + t;
    forall i, j | 0 <= i < |u| && 0 <= j < |u| && i != j
      ensures key(u[i]) != key(u[j])
    {
      if i > 0 { assert u[i] == t[i - 1]; }
      if j > 0 { assert u[j] == t[j - 1]; }
    }
  }

  /** An update that keeps every row's key keeps keys unique. */
  lemma UniqueKeysSameKeys<T>(t: seq<T>, u: seq<T>, key: T -> Guid)
    requires UniqueKeys(t, key)
    requires |t| == |u| && forall i :: 0 <= i < |t| ==> key(u[i]) == key(t[i])
    ensures UniqueKeys(u, key)
  {
  }

  /** LINQ Where: the rows of s that satisfy keep, in their order. */
  function Filter<T(!new)>(s: seq<T>, keep: T -> bool): (r: seq<T>)
    ensures |r| <= |s|
    ensures forall x :: x in r <==> x in s && keep(x)
    ensures forall x :: multiset(r)[x] == if keep(x) then multiset(s)[x] else 0
  {
    if |s| == 0 then []
    else
      assert s == [s[0]] + s[1..];
      (if keep(s[0]) then [s[0]] else []) + Filter(s[1..], keep)
  }

  /** Filter is a homomorphism on concatenation; with Filter([x]) being [x] or
      [] this fixes the order of the rows it keeps. */
  lemma {:induction false} FilterConcat<T(!new)>(a: seq<T>, b: seq<T>, keep: T -> bool)
    ensures Filter(a + b, keep) == Filter(a, keep) + Filter(b, keep)
  {
    if |a| == 0 {
      assert a + b == b;
    } else {
      assert (a + b)[1..] == a[1..] + b;
      FilterConcat(a[1..], b, keep);
    }
  }

  /** LINQ Select(f).ToList(): one output per input, in order. */
  function Map<A, B>(s: seq<A>, f: A -> B): (r: seq<B>)
    ensures |r| == |s|
    ensures forall i :: 0 <= i < |s| ==> r[i] == f(s[i])
  {
    if |s| == 0 then [] else [f(s[0])] + Map(s[1..], f)
  }

  /** Mapping after filtering equals filtering after mapping, when the output
      filter sees in f(x) exactly what the input filter sees in x. */
  lemma {:induction false} MapFilterCommute<A(!new), B(!new)>(s: seq<A>, f: A -> B, keepA: A -> bool, keepB: B -> bool)
    requires forall x :: keepB(f(x)) == keepA(x)
    ensures Map(Filter(s, keepA), f) == Filter(Map(s, f), keepB)
  {
    if |s| > 0 {
      MapFilterCommute(s[1..], f, keepA, keepB);
      assert Map(s, f)[1..] == Map(s[1..], f);
      var head := if keepA(s[0]) then [s[0]] else [];
      assert Filter(s, keepA) == head + Filter(s[1..], keepA);
      MapConcat(head, Filter(s[1..], keepA), f);
    }
  }

  lemma {:induction false} MapConcat<A, B>(a: seq<A>, b: seq<A>, f: A -> B)
    ensures Map(a + b, f) == Map(a, f) + Map(b, f)
  {
    assert |Map(a + b, f)| == |Map(a, f) + Map(b, f)|;
    forall i | 0 <= i < |a + b|
      ensures Map(a + b, f)[i] == (Map(a, f) + Map(b, f))[i]
    {
      if i < |a| { assert (a + b)[i] == a[i]; } else { assert (a + b)[i] == b[i - |a|]; }
    }
  }

  /** Deleting the rows a filter rejects keeps keys unique. */
  lemma {:induction false} FilterKeepsUniqueKeys<T(!new)>(s: seq<T>, keep: T -> bool, key: T -> Guid)
    requires UniqueKeys(s, key)
    ensures UniqueKeys(Filter(s, keep), key)
  {
    if |s| > 0 {
      var rest := s[1..];
      forall i, j | 0 <= i < |rest| && 0 <= j < |rest| && i != j
        ensures key(rest[i]) != key(rest[j])
      {
        assert rest[i] == s[i + 1] && rest[j] == s[j + 1];
      }
      assert forall i :: 0 <= i < |rest| ==> rest[i] == s[i + 1];
      FilterKeepsUniqueKeys(rest, keep, key);
      var fr := Filter(rest, keep);
      forall y | y in fr
        ensures key(y) != key(s[0])
      {
        var j :| 0 <= j < |rest| && rest[j] == y;
        assert s[j + 1] == y;
      }
      if keep(s[0]) {
        UniqueKeysCons(s[0], fr, key);
      }
    }
  }

  /** The position of the first row satisfying keep. */
  function IndexOf<T>(s: seq<T>, keep: T -> bool): (r: Option<nat>)
    ensures r.None? <==> forall i :: 0 <= i < |s| ==> !keep(s[i])
    ensures r.Some? ==> r.value < |s| && keep(s[r.value])
                        && forall j :: 0 <= j < r.value ==> !keep(s[j])
  {
    if |s| == 0 then None
    else if keep(s[0]) then Some(0)
    else
      var r := IndexOf(s[1..], keep);
      if r.Some? then Some(r.value + 1) else None
  }

  /** LINQ FirstOrDefault(keep): the first row satisfying keep. */
  function First<T>(s: seq<T>, keep: T -> bool): (r: Option<T>)
    ensures r.None? <==> forall i :: 0 <= i < |s| ==> !keep(s[i])
    ensures r.Some? ==> r.value in s && keep(r.value)
  {
    var k := IndexOf(s, keep);
    if k.None? then None else Some(s[k.value])
  }
}
