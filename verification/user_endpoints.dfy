/** The `/users` endpoints: the staff-only listing and lookups, registration, and the two
    partial updates, of which only the one on another user may change a role. */
module UserEndpoints {
  import opened Common
  import opened Entities
  import UserSchemas
  import UserServices
  import UserValidators
  import CrudUsers
  import Deps

  const OWN_ROLE_MESSAGE := "Changing own role is forbidden"

  /** `list_users`: MANAGER or ADMIN only; every user, active or not, ordered by id. */
  function ListUsers(users: map<int, User>, current: User): (r: Outcome<seq<User>>)
    ensures r.Ok? <==> IsStaffRole(current.role)
    ensures r.Fail? ==> r == HttpFail(403, Deps.FORBIDDEN_MESSAGE)
    ensures r.Ok? ==> r.value == CrudUsers.ListAll(users, false)
    ensures r.Ok? ==> forall u :: u in r.value <==> u in users.Values
  {
    var _ :- Deps.RequireManagerOrAdmin(current);
    FilterAll(Rows(users), (u: User) => !false || u.isActive);
    Ok(Rows(users))
  }

  /** `create_user`: the contact check first; on success a new active USER. Nothing is written
      when the check fails. */
  method CreateUser(db: Db, payload: UserSchemas.UserCreate, hash: UserServices.Hasher) returns (r: Outcome<User>)
    requires db.Valid()
    modifies db`users, db`nextId
    ensures db.Valid()
    ensures r.Fail? <==> !(Truthy(payload.email) || Truthy(payload.phone))
    ensures r.Fail? ==>
              r == HttpFail(400, UserValidators.CONTACT_REQUIRED_MESSAGE)
              && db.users == old(db.users) && db.nextId == old(db.nextId)
    ensures r.Ok? ==>
              r.value.id !in old(db.users) && db.users == old(db.users)[r.value.id := r.value]
              && r.value == User(r.value.id, payload.username, payload.email, payload.phone, payload.tgId,
                                 ROLE_USER, true, hash(payload.password))
  {
    var check := UserValidators.EnsureContactPresentOnCreate(payload);
    if check.Fail? {
      return Fail(check.exc);
    }
    var u := CrudUsers.CreateWithHash(db, payload, hash);
    r := Ok(u);
  }

  /** `patch_me`: a sent role is refused with 403 and nothing changes; otherwise the update is
      applied to the current user, whose role and activity therefore stay as they were. */
  method PatchMe(db: Db, current: User, payload: UserSchemas.UserUpdate, hash: UserServices.Hasher)
    returns (r: Outcome<User>)
    requires db.Valid() && current.id in db.users && db.users[current.id] == current
    modifies db`users
    ensures db.Valid()
    ensures payload.role.Some? ==> r == HttpFail(403, OWN_ROLE_MESSAGE) && db.users == old(db.users)
    ensures payload.role.None? ==>
              r == Ok(UserServices.UserUpdated(current, payload, hash))
              && db.users == old(db.users)[current.id := r.value]
    ensures r.Ok? ==> r.value.role == current.role && r.value.isActive == current.isActive && r.value.id == current.id
  {
    if payload.role.Some? {
      return HttpFail(403, OWN_ROLE_MESSAGE);
    }
    var u := CrudUsers.UpdateWithLogic(db, current.id, payload, hash);
    r := Ok(u);
  }

  /** `get_user_by_id`: 403 for a caller who is not staff, then 404 for an unknown id, then 403
      for an inactive user. */
  function GetUserById(users: map<int, User>, current: User, userId: int): (r: Outcome<User>)
    ensures !IsStaffRole(current.role) ==> r == HttpFail(403, Deps.FORBIDDEN_MESSAGE)
    ensures IsStaffRole(current.role) && userId !in users ==> r == HttpFail(404, UserValidators.USER_NOT_FOUND_MESSAGE)
    ensures IsStaffRole(current.role) && userId in users && !users[userId].isActive ==>
              r == HttpFail(403, UserValidators.INACTIVE_USER_MESSAGE)
    ensures r.Ok? <==> IsStaffRole(current.role) && userId in users && users[userId].isActive
    ensures r.Ok? ==> r.value == users[userId]
  {
    var _ :- Deps.RequireManagerOrAdmin(current);
    var user :- UserValidators.GetUserOr404(users, userId);
    var _ :- UserValidators.EnsureUserActive(user);
    Ok(user)
  }

  /** `patch_user_by_id`: the guards of `get_user_by_id`, then the update, a role included. */
  method PatchUserById(db: Db, current: User, userId: int, payload: UserSchemas.UserUpdate,
                       hash: UserServices.Hasher) returns (r: Outcome<User>)
    requires db.Valid()
    modifies db`users
    ensures db.Valid()
    ensures GetUserById(old(db.users), current, userId).Fail? ==>
              r == Fail(GetUserById(old(db.users), current, userId).exc) && db.users == old(db.users)
    ensures GetUserById(old(db.users), current, userId).Ok? ==>
              r == Ok(UserServices.UserUpdated(old(db.users[userId]), payload, hash))
              && db.users == old(db.users)[userId := r.value]
  {
    var guard := GetUserById(db.users, current, userId);
    if guard.Fail? {
      return Fail(guard.exc);
    }
    var u := CrudUsers.UpdateWithLogic(db, userId, payload, hash);
    r := Ok(u);
  }

  /** Any MANAGER may set any role, ADMIN included, on any active user, while no one can change
      their own role through `patch_me`. */
  lemma StaffMaySetAnyRole(users: map<int, User>, current: User, userId: int, role: int, hash: UserServices.Hasher)
    requires current.role == ROLE_MANAGER && userId in users && users[userId].isActive
    ensures GetUserById(users, current, userId).Ok?
    ensures UserServices.UserUpdated(users[userId], UserSchemas.UserUpdate(None, None, None, None, Some(role), None), hash).role
            == role
  {
  }
}
