/** Promotion lookup by id, with the id-format guard. */
module ActionValidators {
  import opened Common
  import opened Entities
  import opened ApiExceptions
  import CrudActions

  const INVALID_ID_MESSAGE := "ID должен быть положительным числом"
  const ACTION_NOT_FOUND_MESSAGE := "Акция не найдена"

  /** `get_action_or_404`: the lookup hides inactive actions (its `show_all` is left False); a
      non-positive id is INVALID_ID_FORMAT 400 even though the lookup has run; a positive id with
      no visible action is NOT_FOUND 404. */
  function GetActionOr404(actions: map<int, Action>, actionId: int): (r: Outcome<Action>)
    ensures actionId <= 0 ==> r == Err("INVALID_ID_FORMAT", INVALID_ID_MESSAGE, 400)
    ensures actionId > 0 && (actionId !in actions || !actions[actionId].isActive) ==>
              r == Err("NOT_FOUND", ACTION_NOT_FOUND_MESSAGE, 404)
    ensures r.Ok? <==> actionId > 0 && actionId in actions && actions[actionId].isActive
    ensures r.Ok? ==> r.value == actions[actionId]
  {
    var action := CrudActions.Get(actions, actionId, false);
    if actionId <= 0 then Err("INVALID_ID_FORMAT", INVALID_ID_MESSAGE, 400)
    else if action.None? then Err("NOT_FOUND", ACTION_NOT_FOUND_MESSAGE, 404)
    else Ok(action.value)
  }

  /** An inactive action is reported exactly as a missing one. */
  lemma InactiveActionLooksMissing(actions: map<int, Action>, actionId: int)
    requires actionId in actions && !actions[actionId].isActive
    ensures GetActionOr404(actions, actionId) == GetActionOr404(actions - {actionId}, actionId)
  {
  }
}
