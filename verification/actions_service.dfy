/** The promotion service: the visibility filter over a listing that already hides inactive
    actions, reading one action, and creation and update through the store. */
module ActionsService {
  import opened Common
  import opened Entities
  import opened ApiExceptions
  import opened ActionValidators
  import CrudActions

  const CREATE_ERROR_CODE := "Ошибка создания акции"
  const INACTIVE_MESSAGE := "Кафе не найдено"

  /** `get_all_actions`: the store lists active actions only (`get_multi` without `show_all`),
      then inactive ones are dropped unless an ADMIN or MANAGER asked for all. */
  function GetAllActions(actions: map<int, Action>, currentUser: User, showAll: bool): (r: seq<Action>)
    ensures forall a :: a in r ==> a in actions.Values
    ensures forall a :: a in r ==> a.isActive
  {
    var rows := CrudActions.GetMulti(actions, false, None);
    if !(IsStaffRole(currentUser.role) && showAll) then Filter(rows, (a: Action) => a.isActive) else rows
  }

  /** Whatever the caller's role and `show_all`, the listing is exactly the active actions. */
  lemma ListingIgnoresRole(actions: map<int, Action>, currentUser: User, showAll: bool)
    ensures forall a :: a in GetAllActions(actions, currentUser, showAll) <==> a in actions.Values && a.isActive
  {
  }

  /** `get_action`: the lookup, then an inactive action is NOT_FOUND for a plain user. */
  function GetAction(actions: map<int, Action>, actionId: int, currentUser: User): (r: Outcome<Action>)
    ensures GetActionOr404(actions, actionId).Fail? ==> r == GetActionOr404(actions, actionId)
    ensures r.Ok? <==> actionId > 0 && actionId in actions && actions[actionId].isActive
    ensures r.Ok? ==> r.value == actions[actionId]
  {
    var action :- GetActionOr404(actions, actionId);
    if !action.isActive && !IsStaffRole(currentUser.role) then Err("NOT_FOUND", INACTIVE_MESSAGE, 404)
    else Ok(action)
  }

  /** An inactive action is NOT_FOUND for every caller, staff included: the lookup already hides it. */
  lemma InactiveActionHiddenFromAll(actions: map<int, Action>, actionId: int, currentUser: User)
    requires actionId > 0 && actionId in actions && !actions[actionId].isActive
    ensures GetAction(actions, actionId, currentUser) == Err("NOT_FOUND", ACTION_NOT_FOUND_MESSAGE, 404)
  {
  }

  /** `create_action`: the store's ValueError becomes a 400 whose code is the fixed title and
      whose message is the error text. */
  method CreateAction(db: Db, actionIn: CrudActions.ActionsCreate) returns (r: Outcome<Action>)
    requires db.Valid()
    modifies db`actions, db`nextId
    ensures db.Valid()
    ensures var linked := CrudActions.CreatedCafes(old(db.cafes), actionIn.cafesId);
            (linked.Fail? ==> r == Err(CREATE_ERROR_CODE, CrudActions.CAFES_MISSING_MESSAGE, 400)
                              && db.actions == old(db.actions))
            && (linked.Ok? ==> r.Ok? && r.value.id !in old(db.actions)
                               && r.value == CrudActions.NewAction(r.value.id, actionIn, linked.value)
                               && db.actions == old(db.actions)[r.value.id := r.value])
  {
    var created := CrudActions.Create(db, actionIn);
    if created.Fail? {
      var ValueErr(msg) := created.exc;
      return Err(CREATE_ERROR_CODE, msg, 400);
    }
    r := created;
  }

  /** `update_action`: the lookup first, failing before any write; the store's ValueError is
      not caught. */
  method UpdateAction(db: Db, actionId: int, actionIn: CrudActions.ActionsUpdate) returns (r: Outcome<Action>)
    requires db.Valid()
    modifies db`actions
    ensures db.Valid()
    ensures var found := GetActionOr404(old(db.actions), actionId);
            (found.Fail? ==> r == Fail(found.exc) && db.actions == old(db.actions))
            && (found.Ok? ==>
                  var linked := CrudActions.UpdatedCafes(old(db.cafes), found.value.cafes, actionIn.cafesId);
                  (linked.Fail? ==> r == Fail(linked.exc) && db.actions == old(db.actions))
                  && (linked.Ok? ==> r == Ok(CrudActions.Patched(found.value, actionIn.fields).(cafes := linked.value))
                                     && db.actions == old(db.actions)[actionId := r.value]))
  {
    var found := GetActionOr404(db.actions, actionId);
    if found.Fail? {
      return Fail(found.exc);
    }
    r := CrudActions.Update(db, actionId, actionIn);
  }
}
