/** User request schemas: email, phone and tg_id are stripped and a blank one becomes None, on
    registration and on update alike; the username is stripped; lengths are bounded; the role
    is one of USER, MANAGER, ADMIN. */
module UserSchemas {
  import opened Common
  import opened Entities

  const LENGTH_MESSAGE := "String length out of bounds"
  const ROLE_MESSAGE := "Input should be 0, 1 or 2"

  /** USERNAME_MAX, EMAIL_MAX, PHONE_MAX and TG_ID_MAX, whose values are not part of this model. */
  datatype UserLimits = UserLimits(usernameMax: nat, emailMax: nat, phoneMax: nat, tgIdMax: nat)

  /** `UserRole`: USER = 0 < MANAGER = 1 < ADMIN = 2. */
  predicate IsUserRole(n: int) {
    n == ROLE_USER || n == ROLE_MANAGER || n == ROLE_ADMIN
  }

  /** `_empty_to_none`: None stays None; a string is stripped, and an empty result is None. */
  function EmptyToNone(v: Option<string>): (r: Option<string>)
    ensures v.None? ==> r.None?
    ensures v.Some? && IsBlank(v.value) ==> r.None?
    ensures v.Some? && !IsBlank(v.value) ==> r == Some(Strip(v.value)) && r.value != []
  {
    if v.None? || Strip(v.value) == [] then None else Some(Strip(v.value))
  }

  /** Normalising an already normalised value changes nothing. */
  lemma EmptyToNoneIdempotent(v: Option<string>)
    ensures EmptyToNone(EmptyToNone(v)) == EmptyToNone(v)
  {
    if v.Some? && !IsBlank(v.value) {
      StripIdempotent(v.value);
    }
  }

  predicate WithinMax(v: Option<string>, max: nat) {
    v.None? || |v.value| <= max
  }

  function Bounded(v: Option<string>, max: nat): (r: Outcome<Option<string>>)
    ensures r.Ok? <==> WithinMax(v, max)
    ensures r.Ok? ==> r.value == v
  {
    if WithinMax(v, max) then Ok(v) else Fail(ValueErr(LENGTH_MESSAGE))
  }

  datatype UserCreate = UserCreate(
    username: string,
    password: string,
    email: Option<string>,
    phone: Option<string>,
    tgId: Option<string>)

  /** `UserCreate` validation of a request (the same record shape, before normalisation). */
  function ValidateUserCreate(raw: UserCreate, limits: UserLimits): (r: Outcome<UserCreate>)
    ensures r.Ok? <==>
              |Strip(raw.username)| <= limits.usernameMax
              && WithinMax(EmptyToNone(raw.email), limits.emailMax)
              && WithinMax(EmptyToNone(raw.phone), limits.phoneMax)
              && WithinMax(EmptyToNone(raw.tgId), limits.tgIdMax)
    ensures r.Ok? ==>
              r.value == UserCreate(Strip(raw.username), raw.password, EmptyToNone(raw.email),
                                    EmptyToNone(raw.phone), EmptyToNone(raw.tgId))
  {
    var username :- Bounded(Some(Strip(raw.username)), limits.usernameMax);
    var email :- Bounded(EmptyToNone(raw.email), limits.emailMax);
    var phone :- Bounded(EmptyToNone(raw.phone), limits.phoneMax);
    var tgId :- Bounded(EmptyToNone(raw.tgId), limits.tgIdMax);
    Ok(UserCreate(username.value, raw.password, email, phone, tgId))
  }

  /** A partial update; None is a field that was not sent (or sent as null). */
  datatype UserUpdate = UserUpdate(
    username: Option<string>,
    email: Option<string>,
    phone: Option<string>,
    tgId: Option<string>,
    role: Option<int>,
    password: Option<string>)

  /** `UserUpdate` validation: the same normalisation as on registration, and a role value
      outside the enum is refused. */
  function ValidateUserUpdate(raw: UserUpdate, limits: UserLimits): (r: Outcome<UserUpdate>)
    ensures r.Ok? <==>
              (raw.username.Some? ==> |Strip(raw.username.value)| <= limits.usernameMax)
              && WithinMax(EmptyToNone(raw.email), limits.emailMax)
              && WithinMax(EmptyToNone(raw.phone), limits.phoneMax)
              && WithinMax(EmptyToNone(raw.tgId), limits.tgIdMax)
              && (raw.role.Some? ==> IsUserRole(raw.role.value))
    ensures r.Ok? ==>
              r.value == UserUpdate(if raw.username.Some? then Some(Strip(raw.username.value)) else None,
                                    EmptyToNone(raw.email), EmptyToNone(raw.phone), EmptyToNone(raw.tgId),
                                    raw.role, raw.password)
  {
    var username :- Bounded(if raw.username.Some? then Some(Strip(raw.username.value)) else None,
                            limits.usernameMax);
    var email :- Bounded(EmptyToNone(raw.email), limits.emailMax);
    var phone :- Bounded(EmptyToNone(raw.phone), limits.phoneMax);
    var tgId :- Bounded(EmptyToNone(raw.tgId), limits.tgIdMax);
    if raw.role.Some? && !IsUserRole(raw.role.value) then Fail(ValueErr(ROLE_MESSAGE))
    else Ok(UserUpdate(username, email, phone, tgId, raw.role, raw.password))
  }

  /** Registration and update store the same contact values for the same input. */
  lemma SameNormalizationOnCreateAndUpdate(create: UserCreate, update: UserUpdate, limits: UserLimits)
    requires create.email == update.email && create.phone == update.phone && create.tgId == update.tgId
    requires ValidateUserCreate(create, limits).Ok? && ValidateUserUpdate(update, limits).Ok?
    ensures ValidateUserCreate(create, limits).value.email == ValidateUserUpdate(update, limits).value.email
    ensures ValidateUserCreate(create, limits).value.phone == ValidateUserUpdate(update, limits).value.phone
    ensures ValidateUserCreate(create, limits).value.tgId == ValidateUserUpdate(update, limits).value.tgId
  {
  }
}
