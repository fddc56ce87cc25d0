/** Request dependencies: the current user behind a bearer token, and the MANAGER/ADMIN gate. */
module Deps {
  import opened Common
  import opened Entities

  const INVALID_TOKEN_MESSAGE := "Invalid token"
  const USER_NOT_FOUND_MESSAGE := "User not found"
  const INACTIVE_USER_MESSAGE := "Inactive user"
  const FORBIDDEN_MESSAGE := "Forbidden"

  /** The claims of a decoded token; `sub` is None when the claim is absent. */
  datatype Claims = Claims(sub: Option<Value>)

  /** `decode_token`: the claims, or None when it raises TokenError. Not part of this model. */
  type TokenDecoder = string -> Option<Claims>

  predicate AllDigits(s: string) {
    forall i :: 0 <= i < |s| ==> IsDigit(s[i])
  }

  /** The number a string of decimal digits denotes. */
  function DigitsValue(s: string): nat
    requires AllDigits(s)
  {
    if s == [] then 0 else DigitsValue(s[..|s| - 1]) * 10 + (s[|s| - 1] as int - '0' as int)
  }

  /** `int(s)` on text: surrounding whitespace, an optional sign, then one or more decimal digits. */
  function ParseIntText(s: string): (r: Option<int>)
    ensures IsBlank(s) ==> r.None?
  {
    var t := Strip(s);
    if t != [] && (t[0] == '-' || t[0] == '+') then
      var digits := t[1..];
      if digits != [] && AllDigits(digits) then
        var v: int := DigitsValue(digits);
        Some(if t[0] == '-' then -v else v)
      else None
    else if t != [] && AllDigits(t) then Some(DigitsValue(t))
    else None
  }

  lemma {:induction false} DecimalDigits(n: nat)
    ensures AllDigits(IntToString(n)) && DigitsValue(IntToString(n)) == n
    decreases n
  {
    if n >= 10 {
      DecimalDigits(n / 10);
      var s := IntToString(n);
      assert s[..|s| - 1] == IntToString(n / 10);
    }
  }

  /** A string of digits reads back as the number it denotes. */
  lemma ParseUnsigned(d: string)
    requires d != [] && AllDigits(d)
    ensures ParseIntText(d) == Some(DigitsValue(d))
  {
    assert IsDigit(d[0]) && IsDigit(d[|d| - 1]);
    StripFixed(d);
  }

  /** A minus sign followed by digits reads back as the negated number. */
  lemma ParseSigned(d: string)
    requires d != [] && AllDigits(d)
    ensures ParseIntText("-" + d) == Some(-(DigitsValue(d) as int))
  {
    var s := "-" + d;
    assert s[0] == '-' && s[1..] == d;
    assert IsDigit(s[|s| - 1]) by {
      assert s[|s| - 1] == d[|d| - 1];
    }
    StripFixed(s);
  }

  lemma ParseNonNegative(n: nat)
    ensures ParseIntText(IntToString(n)) == Some(n)
  {
    DecimalDigits(n);
    ParseUnsigned(IntToString(n));
  }

  lemma ParseNegative(n: int)
    requires n < 0
    ensures ParseIntText(IntToString(n)) == Some(n)
  {
    DecimalDigits(-n);
    ParseSigned(IntToString(-n));
    assert IntToString(n) == "-" + IntToString(-n);
  }

  /** Reading back the decimal text of any integer gives that integer. */
  lemma ParseIntRoundTrip(n: int)
    ensures ParseIntText(IntToString(n)) == Some(n)
  {
    if n < 0 {
      ParseNegative(n);
    } else {
      ParseNonNegative(n);
    }
  }

  /** `int(sub)`: None for a missing or null claim (TypeError) and for text that is no integer
      (ValueError); a boolean counts as 0 or 1. */
  function IntOf(sub: Option<Value>): (r: Option<int>)
    ensures sub.None? || sub == Some(VNone) ==> r.None?
    ensures sub.Some? && sub.value.VInt? ==> r == Some(sub.value.i)
  {
    match sub
    case None => None
    case Some(VNone) => None
    case Some(VInt(i)) => Some(i)
    case Some(VBool(b)) => Some(if b then 1 else 0)
    case Some(VStr(s)) => ParseIntText(s)
  }

  /** `get_current_user`: an undecodable token or a `sub` that is no integer is 401 "Invalid
      token"; an unknown id is 401 "User not found"; an inactive user is 403; otherwise the user. */
  function GetCurrentUser(users: map<int, User>, decode: TokenDecoder, token: string): (r: Outcome<User>)
    ensures decode(token).None? ==> r == HttpFail(401, INVALID_TOKEN_MESSAGE)
    ensures decode(token).Some? && IntOf(decode(token).value.sub).None? ==> r == HttpFail(401, INVALID_TOKEN_MESSAGE)
    ensures decode(token).Some? && IntOf(decode(token).value.sub).Some? ==>
              var id := IntOf(decode(token).value.sub).value;
              (id !in users ==> r == HttpFail(401, USER_NOT_FOUND_MESSAGE))
              && (id in users && !users[id].isActive ==> r == HttpFail(403, INACTIVE_USER_MESSAGE))
              && (id in users && users[id].isActive ==> r == Ok(users[id]))
    ensures r.Ok? ==> r.value.isActive && r.value in users.Values
  {
    match decode(token)
    case None => HttpFail(401, INVALID_TOKEN_MESSAGE)
    case Some(claims) =>
      match IntOf(claims.sub)
      case None => HttpFail(401, INVALID_TOKEN_MESSAGE)
      case Some(id) =>
        if id !in users then HttpFail(401, USER_NOT_FOUND_MESSAGE)
        else if !users[id].isActive then HttpFail(403, INACTIVE_USER_MESSAGE)
        else Ok(users[id])
  }

  /** A token whose `sub` is the decimal text of an active user's id authenticates that user. */
  lemma TextSubjectAuthenticates(users: map<int, User>, decode: TokenDecoder, token: string, id: int)
    requires decode(token) == Some(Claims(Some(VStr(IntToString(id)))))
    requires id in users && users[id].isActive
    ensures GetCurrentUser(users, decode, token) == Ok(users[id])
  {
    ParseIntRoundTrip(id);
  }

  /** `require_manager_or_admin`: the same user when the role is MANAGER or ADMIN, else 403. */
  function RequireManagerOrAdmin(current: User): (r: Outcome<User>)
    ensures r.Ok? <==> current.role == ROLE_MANAGER || current.role == ROLE_ADMIN
    ensures r.Ok? ==> r.value == current
    ensures r.Fail? ==> r == HttpFail(403, FORBIDDEN_MESSAGE)
  {
    if current.role != ROLE_MANAGER && current.role != ROLE_ADMIN then HttpFail(403, FORBIDDEN_MESSAGE)
    else Ok(current)
  }
}
