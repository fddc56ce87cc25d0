/** Guards of the user endpoints: the user must exist, a registration needs a contact, and an
    inactive user may not be read or changed. */
module UserValidators {
  import opened Common
  import opened Entities
  import UserSchemas

  const USER_NOT_FOUND_MESSAGE := "User not found"
  const CONTACT_REQUIRED_MESSAGE := "email or phone is required"
  const INACTIVE_USER_MESSAGE := "Inactive user"

  /** `get_user_or_404`. */
  function GetUserOr404(users: map<int, User>, userId: int): (r: Outcome<User>)
    ensures r.Ok? <==> userId in users
    ensures r.Ok? ==> r.value == users[userId]
    ensures r.Fail? ==> r == HttpFail(404, USER_NOT_FOUND_MESSAGE)
  {
    if userId !in users then HttpFail(404, USER_NOT_FOUND_MESSAGE) else Ok(users[userId])
  }

  /** `ensure_contact_present_on_create`: an email or a phone that is not empty. */
  function EnsureContactPresentOnCreate(payload: UserSchemas.UserCreate): (r: Outcome<()>)
    ensures r.Ok? <==> Truthy(payload.email) || Truthy(payload.phone)
    ensures r.Fail? ==> r == HttpFail(400, CONTACT_REQUIRED_MESSAGE)
  {
    if !(Truthy(payload.email) || Truthy(payload.phone)) then HttpFail(400, CONTACT_REQUIRED_MESSAGE)
    else Ok(())
  }

  /** After schema validation a registration passes the contact check exactly when its email or
      phone held something besides whitespace. */
  lemma ContactAfterNormalization(raw: UserSchemas.UserCreate, limits: UserSchemas.UserLimits)
    requires UserSchemas.ValidateUserCreate(raw, limits).Ok?
    ensures EnsureContactPresentOnCreate(UserSchemas.ValidateUserCreate(raw, limits).value).Ok? <==>
              (raw.email.Some? && !IsBlank(raw.email.value)) || (raw.phone.Some? && !IsBlank(raw.phone.value))
  {
  }

  /** `ensure_user_active`. */
  function EnsureUserActive(user: User): (r: Outcome<()>)
    ensures r.Ok? <==> user.isActive
    ensures r.Fail? ==> r == HttpFail(403, INACTIVE_USER_MESSAGE)
  {
    if !user.isActive then HttpFail(403, INACTIVE_USER_MESSAGE) else Ok(())
  }
}
