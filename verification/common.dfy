/** Shared vocabulary: optional values, partial-update fields, the exceptions the
    service raises, dynamic attribute values, and small string and collection helpers. */
module Common {

  datatype Option<T> = None | Some(value: T)

  /** A field of a partial-update payload as `model_dump(exclude_unset=True)` sees it:
      either absent from the request, or explicitly set (to a value that may be null). */
  datatype Patch<T> = Unset | Set(value: T) {
    function Or(current: T): T {
      if Set? then value else current
    }
  }

  /** The `detail` of an HTTPException: a plain string or a dictionary. */
  datatype Detail = Text(text: string) | Dict(entries: map<string, string>)

  datatype HttpError = HttpError(status: int, detail: Detail)

  /** Exceptions that leave a core function. */
  datatype Exc =
    | Http(error: HttpError)
    | ValueErr(message: string)
    | AttributeErr(message: string)
    | KeyErr(key: string)
    | Uncaught(name: string)

  datatype Outcome<T> = Ok(value: T) | Fail(exc: Exc) {
    predicate IsFailure() {
      Fail?
    }

    function PropagateFailure<U>(): Outcome<U>
      requires Fail?
    {
      Fail(exc)
    }

    function Extract(): T
      requires Ok?
    {
      value
    }
  }

  /** An HTTPException with a plain-string detail. */
  function HttpFail<T>(status: int, message: string): Outcome<T> {
    Fail(Http(HttpError(status, Text(message))))
  }

  /** True when `o` failed with an HTTPException of the given status. */
  predicate FailsWith<T>(o: Outcome<T>, status: int) {
    o.Fail? && o.exc.Http? && o.exc.error.status == status
  }

  /** A dynamically typed attribute value, as held in a Python object's `__dict__`. */
  datatype Value = VInt(i: int) | VStr(s: string) | VBool(b: bool) | VNone

  // ---------------------------------------------------------------- strings

  /** The characters Python's `str.strip()` removes in the ASCII range. */
  predicate IsSpace(c: char) {
    c == ' ' || c == '\t' || c == '\n' || c == '\r' || c == '\U{000B}' || c == '\U{000C}'
  }

  predicate IsBlank(s: string) {
    forall i :: 0 <= i < |s| ==> IsSpace(s[i])
  }

  /** Python truthiness of an optional string: present and not empty. */
  predicate Truthy(s: Option<string>) {
    s.Some? && s.value != ""
  }

  lemma BlankCons(c: char, t: string)
    requires IsSpace(c) && IsBlank(t)
    ensures IsBlank([c] + t)
  {
    forall i | 0 <= i < |[c] + t| ensures IsSpace(([c] + t)[i]) {
      if i > 0 {
        assert ([c] + t)[i] == t[i - 1];
      }
    }
  }

  lemma BlankSnoc(t: string, c: char)
    requires IsBlank(t) && IsSpace(c)
    ensures IsBlank(t + [c])
  {
    forall i | 0 <= i < |t + [c]| ensures IsSpace((t + [c])[i]) {
      if i < |t| {
        assert (t + [c])[i] == t[i];
      }
    }
  }

  function TrimLeft(s: string): (r: string)
    ensures |r| <= |s| && r == s[|s| - |r|..]
    ensures r == [] || !IsSpace(r[0])
    ensures IsBlank(s[..|s| - |r|])
    decreases |s|
  {
    if |s| > 0 && IsSpace(s[0]) then
      var t := s[1..];
      var r := TrimLeft(t);
      var k := |t| - |r|;
      assert r == s[k + 1..];
      assert s[..k + 1] == [s[0]] + t[..k];
      BlankCons(s[0], t[..k]);
      r
    else
      assert s[..0] == [];
      s
  }

  function TrimRight(s: string): (r: string)
    ensures |r| <= |s| && r == s[..|r|]
    ensures r == [] || !IsSpace(r[|r| - 1])
    ensures IsBlank(s[|r|..])
    decreases |s|
  {
    if |s| > 0 && IsSpace(s[|s| - 1]) then
      var t := s[..|s| - 1];
      var r := TrimRight(t);
      assert r == s[..|r|];
      assert s[|r|..] == t[|r|..] + [s[|s| - 1]];
      BlankSnoc(t[|r|..], s[|s| - 1]);
      r
    else
      assert s[|s|..] == [];
      s
  }

  /** Python's `str.strip()` (ASCII whitespace). */
  function Strip(s: string): (r: string)
    ensures |r| <= |s|
    ensures r == [] || (!IsSpace(r[0]) && !IsSpace(r[|r| - 1]))
    ensures r == [] <==> IsBlank(s)
  {
    StripBlank(s);
    TrimRight(TrimLeft(s))
  }

  /** Stripping cuts a blank prefix and a blank suffix off the text and keeps the middle. Stated
      apart from `Strip`'s contract so that its existential stays out of every caller's proof. */
  lemma StripSlice(s: string)
    ensures exists i, j :: 0 <= i <= j <= |s| && Strip(s) == s[i..j] && IsBlank(s[..i]) && IsBlank(s[j..])
  {
    var l := TrimLeft(s);
    BlankEnds(s, l, TrimRight(l));
  }

  /** A blank-suffix cut of a blank-prefix cut is a middle slice between blank ends. */
  lemma BlankEnds(s: string, l: string, r: string)
    requires |l| <= |s| && l == s[|s| - |l|..] && IsBlank(s[..|s| - |l|])
    requires |r| <= |l| && r == l[..|r|] && IsBlank(l[|r|..])
    ensures exists i, j :: 0 <= i <= j <= |s| && r == s[i..j] && IsBlank(s[..i]) && IsBlank(s[j..])
  {
    var i := |s| - |l|;
    var j := i + |r|;
    assert r == s[i..j];
    assert s[j..] == l[|r|..];
  }

  lemma StripBlank(s: string)
    ensures TrimRight(TrimLeft(s)) == [] <==> IsBlank(s)
  {
    var l := TrimLeft(s);
    var k := |s| - |l|;
    if l == [] {
      assert s[..k] == s;
      assert TrimRight(l) == [];
    } else {
      assert s[k] == l[0];
      assert !IsBlank(s);
      TrimRightEmpty(l);
    }
  }

  lemma TrimRightEmpty(l: string)
    requires l == [] || !IsSpace(l[0])
    ensures TrimRight(l) == [] ==> l == []
  {
    assert l[0..] == l;
  }

  lemma {:induction false} TrimLeftFixed(s: string)
    requires s == [] || !IsSpace(s[0])
    ensures TrimLeft(s) == s
  {
  }

  lemma {:induction false} TrimRightFixed(s: string)
    requires s == [] || !IsSpace(s[|s| - 1])
    ensures TrimRight(s) == s
  {
  }

  /** Stripping twice is stripping once. */
  lemma {:induction false} StripIdempotent(s: string)
    ensures Strip(Strip(s)) == Strip(s)
  {
    StripFixed(Strip(s));
  }

  lemma {:induction false} StripFixed(r: string)
    requires r == [] || (!IsSpace(r[0]) && !IsSpace(r[|r| - 1]))
    ensures Strip(r) == r
  {
    TrimLeftFixed(r);
    TrimRightFixed(r);
  }

  /** Lower-casing of ASCII and basic Cyrillic letters (`str.lower()` on that range). */
  function LowerChar(c: char): char {
    if 'A' <= c <= 'Z' then (c as int + 32) as char
    else if '\U{0410}' <= c <= '\U{042F}' then (c as int + 32) as char
    else if c == '\U{0401}' then '\U{0451}'
    else c
  }

  function Lower(s: string): (r: string)
    ensures |r| == |s|
    ensures forall i :: 0 <= i < |s| ==> r[i] == LowerChar(s[i])
  {
    if s == [] then [] else [LowerChar(s[0])] + Lower(s[1..])
  }

  predicate OccursAt(s: string, sub: string, i: int) {
    0 <= i <= |s| - |sub| && s[i..i + |sub|] == sub
  }

  /** `sub in s` for strings. */
  predicate Contains(s: string, sub: string) {
    exists i :: 0 <= i <= |s| - |sub| && OccursAt(s, sub, i)
  }

  predicate StartsWith(s: string, prefix: string) {
    |prefix| <= |s| && s[..|prefix|] == prefix
  }

  predicate EndsWith(s: string, suffix: string) {
    |suffix| <= |s| && s[|s| - |suffix|..] == suffix
  }

  predicate IsDigit(c: char) {
    '0' <= c <= '9'
  }

  function DigitChar(d: int): char
    requires 0 <= d < 10
  {
    ('0' as int + d) as char
  }

  /** Decimal text of an integer, as `str(n)` or an f-string writes it. */
  function IntToString(n: int): (r: string)
    ensures |r| > 0
    decreases if n < 0 then 1 - n else n
  {
    if n < 0 then "-" + IntToString(-n)
    else if n < 10 then [DigitChar(n)]
    else IntToString(n / 10) + [DigitChar(n % 10)]
  }

  /** Items joined by ", ". */
  function JoinComma(items: seq<string>): string {
    if items == [] then ""
    else if |items| == 1 then items[0]
    else items[0] + ", " + JoinComma(items[1..])
  }

  /** `str(list_of_ints)`: "[1, 2, 3]". */
  function IntListRepr(xs: seq<int>): string {
    "[" + JoinComma(seq(|xs|, i requires 0 <= i < |xs| => IntToString(xs[i]))) + "]"
  }

  /** `str(set_of_ints)` for a non-empty set, normalised to ascending order: "{1, 2, 3}".
      CPython prints a set in hash-table order, which can differ ("{8, 1}" for {1, 8}). */
  function IntSetRepr(s: set<int>): string {
    var xs := SortedKeys(s);
    "{" + JoinComma(seq(|xs|, i requires 0 <= i < |xs| => IntToString(xs[i]))) + "}"
  }

  // ------------------------------------------------------------ collections

  /** Sorted strictly ascending. */
  predicate StrictlyAscending(s: seq<int>) {
    forall i, j :: 0 <= i < j < |s| ==> s[i] < s[j]
  }

  /** The least element of a non-empty finite set, found by removing one element at a time. */
  lemma {:induction false} MinWitness(s: set<int>) returns (m: int)
    requires s != {}
    ensures m in s && forall y :: y in s ==> m <= y
    decreases |s|
  {
    NonEmptyHasElement(s);
    var x :| x in s;
    if s == {x} {
      m := x;
    } else {
      var rest := MinWitness(s - {x});
      m := if x < rest then x else rest;
      forall y | y in s ensures m <= y {
        if y != x {
          assert y in s - {x};
        }
      }
    }
  }

  lemma MinExists(s: set<int>)
    requires s != {}
    ensures exists m :: m in s && forall y :: y in s ==> m <= y
  {
    var m := MinWitness(s);
  }

  lemma NonEmptyHasElement(s: set<int>)
    requires s != {}
    ensures exists x :: x in s
  {
    if forall x :: x !in s {
      assert false;
    }
  }

  function Min(s: set<int>): (m: int)
    requires s != {}
    ensures m in s && forall y :: y in s ==> m <= y
  {
    MinExists(s);
    var m :| m in s && forall y :: y in s ==> m <= y;
    m
  }

  /** The elements of a finite set of ids in ascending order (an `ORDER BY id`). */
  function SortedKeys(s: set<int>): (r: seq<int>)
    ensures StrictlyAscending(r)
    ensures forall x :: x in r <==> x in s
    ensures |r| == |s|
    decreases |s|
  {
    if s == {} then []
    else
      var m := Min(s);
      var rest := SortedKeys(s - {m});
      assert forall i :: 0 <= i < |rest| ==> m < rest[i];
      [m] + rest
  }

  /** The elements of a list, as a set. */
  function ToSet(s: seq<int>): (r: set<int>)
    ensures forall x :: x in r <==> x in s
  {
    set x | x in s
  }

  /** No id occurs twice in the list. */
  predicate Distinct(s: seq<int>) {
    forall i, j :: 0 <= i < j < |s| ==> s[i] != s[j]
  }

  /** A subset is no larger than its superset. */
  lemma SubsetCard(a: set<int>, b: set<int>)
    requires a <= b
    ensures |a| <= |b|
  {
    assert b == a + (b - a);
  }

  /** A list has as many distinct ids as entries exactly when no id repeats. */
  lemma {:induction false} ToSetCard(s: seq<int>)
    ensures |ToSet(s)| <= |s|
    ensures |ToSet(s)| == |s| <==> Distinct(s)
  {
    if s != [] {
      ToSetCard(s[1..]);
      assert ToSet(s) == {s[0]} + ToSet(s[1..]);
      if s[0] in s[1..] {
        assert ToSet(s) == ToSet(s[1..]);
        var k :| 0 <= k < |s[1..]| && s[1..][k] == s[0];
        assert s[0] == s[k + 1];
      } else {
        assert s[0] !in ToSet(s[1..]);
        assert Distinct(s) <==> Distinct(s[1..]) by {
          if Distinct(s[1..]) {
            forall i, j | 0 <= i < j < |s| ensures s[i] != s[j] {
              if i == 0 {
                assert s[j] == s[1..][j - 1];
              } else {
                assert s[i] == s[1..][i - 1] && s[j] == s[1..][j - 1];
              }
            }
          }
          if Distinct(s) {
            forall i, j | 0 <= i < j < |s[1..]| ensures s[1..][i] != s[1..][j] {
              assert s[1..][i] == s[i + 1] && s[1..][j] == s[j + 1];
            }
          }
        }
      }
    }
  }

  /** The first id of `ids` (in list order) that is not among `keys`. */
  function FirstMissing(ids: seq<int>, keys: set<int>): (r: Option<int>)
    ensures r.None? <==> forall i :: 0 <= i < |ids| ==> ids[i] in keys
    ensures r.Some? ==> exists i :: 0 <= i < |ids| && ids[i] == r.value && r.value !in keys
                                    && forall j :: 0 <= j < i ==> ids[j] in keys
  {
    if ids == [] then None
    else if ids[0] !in keys then Some(ids[0])
    else
      var rest := FirstMissing(ids[1..], keys);
      if rest.Some? then
        var i :| 0 <= i < |ids[1..]| && ids[1..][i] == rest.value && rest.value !in keys
                 && forall j :: 0 <= j < i ==> ids[1..][j] in keys;
        assert ids[i + 1] == rest.value;
        assert forall j :: 0 <= j < i + 1 ==> ids[j] in keys by {
          forall j | 0 <= j < i + 1 ensures ids[j] in keys {
            if j > 0 {
              assert ids[j] == ids[1..][j - 1];
            }
          }
        }
        rest
      else
        assert forall i :: 0 <= i < |ids| ==> ids[i] in keys by {
          forall i | 0 <= i < |ids| ensures ids[i] in keys {
            if i > 0 {
              assert ids[i] == ids[1..][i - 1];
            }
          }
        }
        rest
  }

  /** The rows of a table in ascending key order. */
  function Rows<T(==,!new)>(m: map<int, T>): (r: seq<T>)
    ensures |r| == |m|
    ensures forall x :: x in r <==> x in m.Values
  {
    var ks := SortedKeys(m.Keys);
    var r := seq(|ks|, i requires 0 <= i < |ks| => m[ks[i]]);
    assert forall x :: x in m.Values ==> x in r by {
      forall x | x in m.Values ensures x in r {
        var k :| k in m && m[k] == x;
        assert k in ks;
        var i :| 0 <= i < |ks| && ks[i] == k;
        assert r[i] == x;
      }
    }
    r
  }

  /** The elements of `s` that satisfy `p`, in their original order. */
  function Filter<T(==,!new)>(s: seq<T>, p: T -> bool): (r: seq<T>)
    ensures |r| <= |s|
    ensures forall x :: x in r <==> x in s && p(x)
  {
    if s == [] then []
    else (if p(s[0]) then [s[0]] else []) + Filter(s[1..], p)
  }

  /** Filtering a sequence extended by one element extends the filtered sequence by that
      element exactly when it passes. */
  lemma {:induction false} FilterSnoc<T(!new)>(s: seq<T>, x: T, p: T -> bool)
    ensures Filter(s + [x], p) == Filter(s, p) + (if p(x) then [x] else [])
  {
    if s != [] {
      assert (s + [x])[1..] == s[1..] + [x];
      FilterSnoc(s[1..], x, p);
    }
  }

  /** Filtering by a condition every element meets changes nothing. */
  lemma {:induction false} FilterAll<T(!new)>(s: seq<T>, p: T -> bool)
    requires forall x :: x in s ==> p(x)
    ensures Filter(s, p) == s
  {
    if s != [] {
      FilterAll(s[1..], p);
    }
  }

  /** The rows are in strictly ascending order of `key`. */
  ghost predicate AscendingBy<T>(s: seq<T>, key: T -> int) {
    forall i, j :: 0 <= i < j < |s| ==> key(s[i]) < key(s[j])
  }

  /** When every record is stored under its own key, `Rows` lists them in ascending key order. */
  lemma RowsAscending<T(!new)>(m: map<int, T>, key: T -> int)
    requires forall k :: k in m ==> key(m[k]) == k
    ensures AscendingBy(Rows(m), key)
  {
    var ks := SortedKeys(m.Keys);
    assert forall i :: 0 <= i < |ks| ==> Rows(m)[i] == m[ks[i]];
  }

  /** Filtering keeps the order. */
  lemma {:induction false} FilterAscending<T(!new)>(s: seq<T>, p: T -> bool, key: T -> int)
    requires AscendingBy(s, key)
    ensures AscendingBy(Filter(s, p), key)
  {
    if s != [] {
      TailAscending(s, key);
      FilterAscending(s[1..], p, key);
      var rest := Filter(s[1..], p);
      if p(s[0]) {
        forall x | x in rest ensures key(s[0]) < key(x) {
          var k :| 0 <= k < |s[1..]| && s[1..][k] == x;
          assert x == s[k + 1];
        }
        ConsAscending(s[0], rest, key);
      }
    }
  }

  lemma TailAscending<T>(s: seq<T>, key: T -> int)
    requires s != [] && AscendingBy(s, key)
    ensures AscendingBy(s[1..], key)
  {
    forall i, j | 0 <= i < j < |s[1..]| ensures key(s[1..][i]) < key(s[1..][j]) {
      assert s[1..][i] == s[i + 1] && s[1..][j] == s[j + 1];
    }
  }

  lemma ConsAscending<T>(x: T, rest: seq<T>, key: T -> int)
    requires AscendingBy(rest, key)
    requires forall y :: y in rest ==> key(x) < key(y)
    ensures AscendingBy([x] + rest, key)
  {
    var r := [x] + rest;
    forall i, j | 0 <= i < j < |r| ensures key(r[i]) < key(r[j]) {
      assert r[j] == rest[j - 1];
      if i > 0 {
        assert r[i] == rest[i - 1];
      }
    }
  }

  /** A page of an ordered list is ordered. */
  lemma PageAscending<T(!new)>(s: seq<T>, offset: nat, limit: nat, key: T -> int)
    requires AscendingBy(s, key)
    ensures AscendingBy(Page(s, offset, limit), key)
  {
    var r := Page(s, offset, limit);
    if offset < |s| {
      var hi := if offset + limit < |s| then offset + limit else |s|;
      assert r == s[offset..hi];
      forall i, j | 0 <= i < j < |r| ensures key(r[i]) < key(r[j]) {
        assert r[i] == s[offset + i] && r[j] == s[offset + j];
      }
    }
  }

  // ---------------------------------------------------------------- ordering

  /** `le` is a total preorder: any two rows compare, and the comparison is transitive. */
  ghost predicate TotalPreorder<T(!new)>(le: (T, T) -> bool) {
    (forall a, b :: le(a, b) || le(b, a))
    && (forall a, b, c :: le(a, b) && le(b, c) ==> le(a, c))
  }

  predicate SortedBy<T>(s: seq<T>, le: (T, T) -> bool) {
    forall i, j :: 0 <= i < j < |s| ==> le(s[i], s[j])
  }

  /** `x` placed before the first row it precedes. */
  function InsertBy<T(!new)>(x: T, s: seq<T>, le: (T, T) -> bool): (r: seq<T>)
    requires TotalPreorder(le) && SortedBy(s, le)
    ensures SortedBy(r, le)
    ensures multiset(r) == multiset(s) + multiset{x}
  {
    if s == [] then [x]
    else if le(x, s[0]) then
      assert forall y :: y in s ==> le(x, y) by {
        forall y | y in s ensures le(x, y) {
          var k :| 0 <= k < |s| && s[k] == y;
          if k > 0 {
            assert le(s[0], s[k]);
          }
        }
      }
      ConsSorted(x, s, le);
      [x] + s
    else
      var rest := InsertBy(x, s[1..], le);
      assert SortedBy(s[1..], le) by {
        forall i, j | 0 <= i < j < |s[1..]| ensures le(s[1..][i], s[1..][j]) {
          assert s[1..][i] == s[i + 1] && s[1..][j] == s[j + 1];
        }
      }
      assert forall y :: y in rest ==> le(s[0], y) by {
        forall y | y in rest ensures le(s[0], y) {
          assert y in multiset(rest);
          if y != x {
            assert y in multiset(s[1..]);
            var k :| 0 <= k < |s[1..]| && s[1..][k] == y;
            assert le(s[0], s[k + 1]);
          }
        }
      }
      ConsSorted(s[0], rest, le);
      assert s == [s[0]] + s[1..];
      [s[0]] + rest
  }

  lemma ConsSorted<T>(x: T, s: seq<T>, le: (T, T) -> bool)
    requires SortedBy(s, le)
    requires forall y :: y in s ==> le(x, y)
    ensures SortedBy([x] + s, le)
  {
    var r := [x] + s;
    forall i, j | 0 <= i < j < |r| ensures le(r[i], r[j]) {
      assert r[j] == s[j - 1];
      if i > 0 {
        assert r[i] == s[i - 1];
      }
    }
  }

  /** `ORDER BY`: the same rows, ordered by `le` (rows that compare equal in either order may come
      in any order, as in SQL). */
  function SortBy<T(!new)>(s: seq<T>, le: (T, T) -> bool): (r: seq<T>)
    requires TotalPreorder(le)
    ensures SortedBy(r, le)
    ensures multiset(r) == multiset(s)
  {
    if s == [] then []
    else
      assert s == [s[0]] + s[1..];
      InsertBy(s[0], SortBy(s[1..], le), le)
  }

  /** A page of an ordered list is ordered. */
  lemma PageSortedBy<T(!new)>(s: seq<T>, offset: nat, limit: nat, le: (T, T) -> bool)
    requires SortedBy(s, le)
    ensures SortedBy(Page(s, offset, limit), le)
  {
    var r := Page(s, offset, limit);
    if offset < |s| {
      forall i, j | 0 <= i < j < |r| ensures le(r[i], r[j]) {
        assert r[i] == s[offset + i] && r[j] == s[offset + j];
      }
    }
  }

  /** No row occurs twice. */
  predicate NoDup<T(==)>(s: seq<T>) {
    forall i, j :: 0 <= i < j < |s| ==> s[i] != s[j]
  }

  /** No row occurs twice exactly when every row has multiplicity at most one; so a permutation
      of a list without repeats has none either. */
  lemma {:induction false} NoDupMultiset<T>(s: seq<T>)
    ensures NoDup(s) <==> forall x :: multiset(s)[x] <= 1
  {
    if s != [] {
      var h, t := s[0], s[1..];
      assert s == [h] + t;
      NoDupMultiset(t);
      assert NoDup(s) <==> NoDup(t) && h !in t by {
        if NoDup(s) {
          forall i, j | 0 <= i < j < |t| ensures t[i] != t[j] {
            assert t[i] == s[i + 1] && t[j] == s[j + 1];
          }
        }
        if NoDup(t) && h !in t {
          forall i, j | 0 <= i < j < |s| ensures s[i] != s[j] {
            assert s[j] == t[j - 1];
            if i > 0 {
              assert s[i] == t[i - 1];
            }
          }
        }
      }
      assert forall x :: multiset(s)[x] == multiset(t)[x] + (if x == h then 1 else 0);
    }
  }

  /** Lexicographic order on strings by character code. */
  predicate LexLe(a: string, b: string) {
    a == [] || (b != [] && (a[0] < b[0] || (a[0] == b[0] && LexLe(a[1..], b[1..]))))
  }

  lemma {:induction false} LexLeTotal(a: string, b: string)
    ensures LexLe(a, b) || LexLe(b, a)
  {
    if a != [] && b != [] && a[0] == b[0] {
      LexLeTotal(a[1..], b[1..]);
    }
  }

  lemma {:induction false} LexLeTrans(a: string, b: string, c: string)
    requires LexLe(a, b) && LexLe(b, c)
    ensures LexLe(a, c)
  {
    if a != [] && a[0] == b[0] && b[0] == c[0] {
      LexLeTrans(a[1..], b[1..], c[1..]);
    }
  }

  /** `s[offset:offset+limit]`, i.e. SQL `OFFSET offset LIMIT limit`. */
  function Page<T(==,!new)>(s: seq<T>, offset: nat, limit: nat): (r: seq<T>)
    ensures |r| <= limit
    ensures forall x :: x in r ==> x in s
    ensures offset + limit <= |s| ==> r == s[offset..offset + limit]
    ensures offset >= |s| ==> r == []
    ensures offset < |s| < offset + limit ==> r == s[offset..]
  {
    var lo := if offset < |s| then offset else |s|;
    var hi := if offset + limit < |s| then offset + limit else |s|;
    s[lo..hi]
  }
}
