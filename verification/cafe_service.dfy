/** The cafe service: role-dependent visibility, the ordered checks before a cafe is created
    (duplicate, unresolved managers, appointee roles), and the update flow. */
module CafeService {
  import opened Common
  import opened Entities
  import opened ApiExceptions
  import opened CafeSchemas
  import opened CafeValidators
  import CrudCafe

  const DUPLICATE_MESSAGE := "Кафе с таким названием и адресом уже существует."
  const MANAGER_ID_MESSAGE := "Один или несколько ID менеджеров не найдены"
  const PLAIN_USER_MESSAGE := "Простой пользователь не может быть назначен менеджером кафе."
  const ADMIN_APPOINTEE_MESSAGE := "Менеджер не может назначать администратора менеджером кафе."

  /** `cafe_crud.get_by_name_and_address(name, address)` is truthy. The store defines no such
      method, so the lookup is left abstract. */
  type DuplicateLookup = (Snapshot, string, string) -> bool

  /** `get_all_cafes`: inactive cafes are listed only to an ADMIN or MANAGER who asked for them. */
  function GetAllCafes(cafes: map<int, Cafe>, currentUser: User, showAll: bool): (r: seq<Cafe>)
    ensures forall c :: c in r <==> c in cafes.Values && (c.isActive || (IsStaffRole(currentUser.role) && showAll))
  {
    var showInactive := IsStaffRole(currentUser.role) && showAll;
    Filter(CrudCafe.GetMulti(cafes), (c: Cafe) => showInactive || c.isActive)
  }

  /** `get_cafe`: the lookup of `get_cafe_or_404`, then an inactive cafe is NOT_FOUND for
      anyone but an ADMIN or MANAGER. */
  function GetCafe(cafes: map<int, Cafe>, cafeId: int, currentUser: User): (r: Outcome<Cafe>)
    ensures GetCafeOr404(cafes, cafeId).Fail? ==> r == GetCafeOr404(cafes, cafeId)
    ensures GetCafeOr404(cafes, cafeId).Ok? && !cafes[cafeId].isActive && !IsStaffRole(currentUser.role) ==>
              r == Err("NOT_FOUND", CAFE_NOT_FOUND_MESSAGE, 404)
    ensures r.Ok? <==> cafeId > 0 && cafeId in cafes && (cafes[cafeId].isActive || IsStaffRole(currentUser.role))
    ensures r.Ok? ==> r.value == cafes[cafeId]
  {
    var cafe :- GetCafeOr404(cafes, cafeId);
    if !cafe.isActive && !IsStaffRole(currentUser.role) then Err("NOT_FOUND", CAFE_NOT_FOUND_MESSAGE, 404)
    else Ok(cafe)
  }

  /** The two checks the loop makes for one appointee, in order. */
  function AppointeeVerdict(appointee: User, currentUser: User): (r: Outcome<()>)
    ensures appointee.role < ROLE_MANAGER ==> r == Err("INVALID_ROLE", PLAIN_USER_MESSAGE, 400)
    ensures appointee.role >= ROLE_MANAGER && currentUser.role == ROLE_MANAGER && appointee.role == ROLE_ADMIN ==>
              r == Err("FORBIDDEN", ADMIN_APPOINTEE_MESSAGE, 403)
    ensures r.Ok? <==> appointee.role >= ROLE_MANAGER && !(currentUser.role == ROLE_MANAGER && appointee.role == ROLE_ADMIN)
  {
    if appointee.role < ROLE_MANAGER then Err("INVALID_ROLE", PLAIN_USER_MESSAGE, 400)
    else if currentUser.role == ROLE_MANAGER && appointee.role == ROLE_ADMIN then
      Err("FORBIDDEN", ADMIN_APPOINTEE_MESSAGE, 403)
    else Ok(())
  }

  /** The loop over the resolved appointees: the first one that fails decides the error. */
  function AppointeesCheck(users: map<int, User>, ids: seq<int>, currentUser: User): (r: Outcome<()>)
    requires forall i :: 0 <= i < |ids| ==> ids[i] in users
    ensures r.Ok? <==> forall i :: 0 <= i < |ids| ==> AppointeeVerdict(users[ids[i]], currentUser).Ok?
    ensures r.Fail? ==> exists i :: 0 <= i < |ids| && r == AppointeeVerdict(users[ids[i]], currentUser)
                          && forall j :: 0 <= j < i ==> AppointeeVerdict(users[ids[j]], currentUser).Ok?
    decreases |ids|
  {
    if ids == [] then Ok(())
    else
      var _ :- AppointeeVerdict(users[ids[0]], currentUser);
      var rest := AppointeesCheck(users, ids[1..], currentUser);
      if rest.Fail? then
        ghost var i :| 0 <= i < |ids[1..]| && rest == AppointeeVerdict(users[ids[1..][i]], currentUser)
                       && forall j :: 0 <= j < i ==> AppointeeVerdict(users[ids[1..][j]], currentUser).Ok?;
        assert ids[1..][i] == ids[i + 1];
        assert forall j :: 0 <= j < i + 1 ==> AppointeeVerdict(users[ids[j]], currentUser).Ok? by {
          forall j | 0 <= j < i + 1 ensures AppointeeVerdict(users[ids[j]], currentUser).Ok? {
            if j > 0 {
              assert ids[j] == ids[1..][j - 1];
            }
          }
        }
        rest
      else
        assert forall i :: 0 <= i < |ids| ==> AppointeeVerdict(users[ids[i]], currentUser).Ok? by {
          forall i | 0 <= i < |ids| ensures AppointeeVerdict(users[ids[i]], currentUser).Ok? {
            if i > 0 {
              assert ids[i] == ids[1..][i - 1];
            }
          }
        }
        Ok(())
  }

  /** The checks `create_cafe` makes before the create call, in order. */
  function CreateCafeCheck(db: Snapshot, duplicate: DuplicateLookup, cafeIn: CafeCreate,
                           currentUser: User): (r: Outcome<()>)
    ensures duplicate(db, cafeIn.name, cafeIn.address) ==> r == Err("CAFE_DUPLICATE", DUPLICATE_MESSAGE, 400)
    ensures !duplicate(db, cafeIn.name, cafeIn.address) && CrudCafe.HasManagers(cafeIn.managersId)
            && !(cafeIn.managersId.value <= db.users.Keys) ==>
              r == Err("INVALID_MANAGER_ID", MANAGER_ID_MESSAGE, 400)
    ensures r.Ok? <==>
              !duplicate(db, cafeIn.name, cafeIn.address)
              && (CrudCafe.HasManagers(cafeIn.managersId) ==>
                    cafeIn.managersId.value <= db.users.Keys
                    && forall m :: m in cafeIn.managersId.value ==> AppointeeVerdict(db.users[m], currentUser).Ok?)
  {
    if duplicate(db, cafeIn.name, cafeIn.address) then Err("CAFE_DUPLICATE", DUPLICATE_MESSAGE, 400)
    else if CrudCafe.HasManagers(cafeIn.managersId) then
      var ids := cafeIn.managersId.value;
      var found := CrudCafe.ResolvedManagers(db.users, ids);
      CrudCafe.ResolvedCountIffAllExist(db.users, ids);
      if |found| != |ids| then Err("INVALID_MANAGER_ID", MANAGER_ID_MESSAGE, 400)
      else
        assert found == ids;
        var order := SortedKeys(found);
        assert forall m :: m in ids <==> m in order;
        AppointeesCheck(db.users, order, currentUser)
    else Ok(())
  }

  /** A MANAGER may never appoint an ADMIN; an ADMIN may appoint anyone of role MANAGER or ADMIN. */
  lemma AppointmentRules(db: Snapshot, duplicate: DuplicateLookup, cafeIn: CafeCreate, currentUser: User)
    requires !duplicate(db, cafeIn.name, cafeIn.address)
    requires cafeIn.managersId.Some? && cafeIn.managersId.value <= db.users.Keys
    ensures currentUser.role == ROLE_MANAGER && (exists m :: m in cafeIn.managersId.value && db.users[m].role == ROLE_ADMIN)
            ==> CreateCafeCheck(db, duplicate, cafeIn, currentUser).Fail?
    ensures currentUser.role == ROLE_ADMIN && (forall m :: m in cafeIn.managersId.value ==> db.users[m].role >= ROLE_MANAGER)
            ==> CreateCafeCheck(db, duplicate, cafeIn, currentUser).Ok?
  {
  }

  /** `create_cafe`: the checks above, then `cafe_crud.create`. Nothing is created when a check fails. */
  method CreateCafe(db: Db, duplicate: DuplicateLookup, cafeIn: CafeCreate, currentUser: User)
    returns (r: Outcome<Cafe>)
    requires db.Valid()
    modifies db`cafes, db`nextId
    ensures db.Valid()
    ensures var check := CreateCafeCheck(old(db.Snap()), duplicate, cafeIn, currentUser);
            (check.Fail? ==> r == Fail(check.exc) && db.cafes == old(db.cafes))
            && (check.Ok? ==>
                  r.Ok? && r.value.id !in old(db.cafes)
                  && r.value == CrudCafe.NewCafe(r.value.id, cafeIn,
                                                 if CrudCafe.HasManagers(cafeIn.managersId) then cafeIn.managersId.value else {})
                  && db.cafes == old(db.cafes)[r.value.id := r.value])
  {
    var check := CreateCafeCheck(db.Snap(), duplicate, cafeIn, currentUser);
    if check.Fail? {
      return Fail(check.exc);
    }
    var created := CrudCafe.Create(db, cafeIn);
    if created.Fail? {
      // The check has already resolved every manager id, so the ValueError handler that
      // reports INVALID_MANAGER_ID cannot be reached on the same database state.
      assert false;
    }
    r := created;
  }

  /** The checks `update_cafe` makes before the update call. */
  function UpdateCafeCheck(cafes: map<int, Cafe>, permissions: CafePermissionCheck, cafeId: int,
                           currentUser: User): (r: Outcome<Cafe>)
    ensures GetCafeOr404(cafes, cafeId).Fail? ==> r == GetCafeOr404(cafes, cafeId)
    ensures r.Ok? <==> GetCafeOr404(cafes, cafeId).Ok? && permissions(cafes[cafeId], currentUser).Ok?
    ensures r.Ok? ==> r.value == cafes[cafeId]
  {
    var cafe :- GetCafeOr404(cafes, cafeId);
    var _ :- permissions(cafe, currentUser);
    Ok(cafe)
  }

  /** `update_cafe`: lookup, permission check, then `cafe_crud.update`; its ValueError is not caught. */
  method UpdateCafe(db: Db, permissions: CafePermissionCheck, cafeId: int, cafeIn: CafeUpdate,
                    currentUser: User) returns (r: Outcome<Cafe>)
    requires db.Valid()
    modifies db`cafes
    ensures db.Valid()
    ensures var check := UpdateCafeCheck(old(db.cafes), permissions, cafeId, currentUser);
            (check.Fail? ==> r == Fail(check.exc) && db.cafes == old(db.cafes))
            && (check.Ok? ==>
                  var managers := CrudCafe.UpdatedManagers(old(db.users), check.value.managers, cafeIn.managersId);
                  (managers.None? ==> r == Fail(ValueErr(CrudCafe.MANAGERS_MISSING_MESSAGE)) && db.cafes == old(db.cafes))
                  && (managers.Some? ==>
                        r == Ok(CrudCafe.UpdatedFields(check.value, cafeIn).(managers := managers.value))
                        && db.cafes == old(db.cafes)[cafeId := r.value]))
  {
    var check := UpdateCafeCheck(db.cafes, permissions, cafeId, currentUser);
    if check.Fail? {
      return Fail(check.exc);
    }
    r := CrudCafe.Update(db, cafeId, cafeIn);
  }
}
