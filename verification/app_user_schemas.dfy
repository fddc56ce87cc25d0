/** The stricter user schemas: blank contact strings are refused rather than dropped, a
    registration needs an email or a phone, and an update refuses explicit nulls. */
module AppUserSchemas {
  import opened Common
  import opened Entities
  import UserSchemas

  const BLANK_CREATE_MESSAGE := "Поле не должно быть пустой строкой."
  const CONTACT_MESSAGE := "Нужно указать email или phone (хотя бы одно)."
  const NULL_MESSAGE := "null is not allowed for this field"
  const BLANK_UPDATE_MESSAGE := "Пустые строки не допускаются."

  /** `_no_blank`: a whitespace-only string is refused; anything else passes unchanged. */
  function NoBlank(v: Option<string>, message: string): (r: Outcome<Option<string>>)
    ensures r.Ok? <==> !(v.Some? && IsBlank(v.value))
    ensures r.Ok? ==> r.value == v
    ensures r.Fail? ==> r == Fail(ValueErr(message))
  {
    if v.Some? && IsBlank(v.value) then Fail(ValueErr(message)) else Ok(v)
  }

  datatype UserCreate = UserCreate(
    username: string,
    email: Option<string>,
    phone: Option<string>,
    tgId: Option<string>,
    password: string)

  /** `UserCreate` validation: the field checks on email, phone and tg_id, then
      `_require_contact`. A valid payload is returned unchanged. */
  function ValidateUserCreate(raw: UserCreate): (r: Outcome<UserCreate>)
    ensures r.Ok? <==>
              !(raw.email.Some? && IsBlank(raw.email.value))
              && !(raw.phone.Some? && IsBlank(raw.phone.value))
              && !(raw.tgId.Some? && IsBlank(raw.tgId.value))
              && (Truthy(raw.email) || Truthy(raw.phone))
    ensures r.Ok? ==> r.value == raw
  {
    var _ :- NoBlank(raw.email, BLANK_CREATE_MESSAGE);
    var _ :- NoBlank(raw.phone, BLANK_CREATE_MESSAGE);
    var _ :- NoBlank(raw.tgId, BLANK_CREATE_MESSAGE);
    if !(Truthy(raw.email) || Truthy(raw.phone)) then Fail(ValueErr(CONTACT_MESSAGE))
    else Ok(raw)
  }

  /** Once the blank check has passed, the contact rule is just "an email or a phone was given". */
  lemma ContactRule(raw: UserCreate)
    requires !(raw.email.Some? && IsBlank(raw.email.value)) && !(raw.phone.Some? && IsBlank(raw.phone.value))
    requires !(raw.tgId.Some? && IsBlank(raw.tgId.value))
    ensures ValidateUserCreate(raw).Ok? <==> raw.email.Some? || raw.phone.Some?
  {
    if raw.email.Some? && raw.email.value == [] {
      assert IsBlank(raw.email.value);
    }
    if raw.phone.Some? && raw.phone.value == [] {
      assert IsBlank(raw.phone.value);
    }
  }

  /** An update request: each field absent, sent as null, or sent with a value. */
  datatype UserUpdateRequest = UserUpdateRequest(
    username: Patch<Option<string>>,
    email: Patch<Option<string>>,
    phone: Patch<Option<string>>,
    tgId: Patch<Option<string>>,
    role: Patch<Option<int>>,
    password: Patch<Option<string>>)

  predicate SentNull<T>(p: Patch<Option<T>>) {
    p.Set? && p.value.None?
  }

  predicate SentBlank(p: Patch<Option<string>>) {
    p.Set? && p.value.Some? && IsBlank(p.value.value)
  }

  /** `forbid_nulls` then `_no_blank` on one text field; the result is None when not sent. */
  function TextField(p: Patch<Option<string>>): (r: Outcome<Option<string>>)
    ensures r.Ok? <==> !SentNull(p) && !SentBlank(p)
    ensures SentNull(p) ==> r == Fail(ValueErr(NULL_MESSAGE))
    ensures r.Ok? ==> r.value == (if p.Set? then p.value else None)
  {
    if SentNull(p) then Fail(ValueErr(NULL_MESSAGE))
    else if SentBlank(p) then Fail(ValueErr(BLANK_UPDATE_MESSAGE))
    else Ok(if p.Set? then p.value else None)
  }

  /** `UserUpdate` validation: no field may be sent as null, no text field may be blank, and a
      role must be 0, 1 or 2. A valid request keeps the sent values. */
  function ValidateUserUpdate(raw: UserUpdateRequest): (r: Outcome<UserSchemas.UserUpdate>)
    ensures r.Ok? <==>
              !SentNull(raw.username) && !SentBlank(raw.username)
              && !SentNull(raw.email) && !SentBlank(raw.email)
              && !SentNull(raw.phone) && !SentBlank(raw.phone)
              && !SentNull(raw.tgId) && !SentBlank(raw.tgId)
              && !SentNull(raw.role) && (raw.role.Set? ==> UserSchemas.IsUserRole(raw.role.value.value))
              && !SentNull(raw.password) && !SentBlank(raw.password)
    ensures r.Ok? ==>
              r.value.username == (if raw.username.Set? then raw.username.value else None)
              && r.value.email == (if raw.email.Set? then raw.email.value else None)
              && r.value.phone == (if raw.phone.Set? then raw.phone.value else None)
              && r.value.tgId == (if raw.tgId.Set? then raw.tgId.value else None)
              && r.value.role == (if raw.role.Set? then raw.role.value else None)
              && r.value.password == (if raw.password.Set? then raw.password.value else None)
  {
    var username :- TextField(raw.username);
    var email :- TextField(raw.email);
    var phone :- TextField(raw.phone);
    var tgId :- TextField(raw.tgId);
    if SentNull(raw.role) then Fail(ValueErr(NULL_MESSAGE))
    else if raw.role.Set? && !UserSchemas.IsUserRole(raw.role.value.value) then Fail(ValueErr(UserSchemas.ROLE_MESSAGE))
    else
      var password :- TextField(raw.password);
      Ok(UserSchemas.UserUpdate(username, email, phone, tgId, if raw.role.Set? then raw.role.value else None, password))
  }

  /** An explicit null is refused in every field, the role included. */
  lemma ExplicitNullRejected(raw: UserUpdateRequest)
    requires SentNull(raw.username) || SentNull(raw.email) || SentNull(raw.phone) || SentNull(raw.tgId)
             || SentNull(raw.role) || SentNull(raw.password)
    ensures ValidateUserUpdate(raw).Fail?
  {
  }
}
