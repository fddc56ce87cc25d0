/** Promotion storage as the action service uses it: lookups that hide inactive actions unless
    asked, creation and update with an all-or-nothing cafe list, and the `setattr` loop over the
    simple fields that the router shares. */
module CrudActions {
  import opened Common
  import opened Entities

  const CAFES_MISSING_MESSAGE := "Один или несколько кафе не найдены"

  /** The create payload as `CRUDActions.create` reads it. */
  datatype ActionsCreate = ActionsCreate(description: string, photoId: Option<string>, isActive: bool,
                                         cafesId: Option<seq<int>>)

  /** The simple fields of an update payload; None/Unset is a field that was not sent. The
      description is a NOT NULL column, the photo may be cleared. */
  datatype ActionPatch = ActionPatch(description: Option<string>, photoId: Patch<Option<string>>, isActive: Option<bool>)

  /** The update payload as `CRUDActions.update` reads it. */
  datatype ActionsUpdate = ActionsUpdate(fields: ActionPatch, cafesId: Patch<Option<seq<int>>>)

  /** `CRUDActions.get`: the action with that id, hidden when inactive unless `show_all`. */
  function Get(actions: map<int, Action>, actionId: int, showAll: bool): (r: Option<Action>)
    ensures r.Some? <==> actionId in actions && (showAll || actions[actionId].isActive)
    ensures r.Some? ==> r.value == actions[actionId]
  {
    if actionId in actions && (showAll || actions[actionId].isActive) then Some(actions[actionId]) else None
  }

  /** `CRUDActions.get_multi`: active actions unless `show_all`; a given cafe keeps only the
      actions linked to it. */
  function GetMulti(actions: map<int, Action>, showAll: bool, cafeId: Option<int>): (r: seq<Action>)
    ensures forall a :: a in r <==> a in actions.Values && (showAll || a.isActive)
                                    && (cafeId.Some? ==> cafeId.value in a.cafes)
  {
    Filter(Rows(actions), (a: Action) => (showAll || a.isActive) && (cafeId.Some? ==> cafeId.value in a.cafes))
  }

  /** The cafe lookup followed by the count comparison `len(cafes) != len(ids)`. */
  function ResolveCafes(cafes: map<int, Cafe>, ids: seq<int>): (r: Outcome<seq<int>>)
    ensures r.Ok? ==> r.value == CafesAmong(cafes, ids)
    ensures r.Fail? ==> r == Fail(ValueErr(CAFES_MISSING_MESSAGE))
  {
    if |FoundCafes(cafes, ids)| != |ids| then Fail(ValueErr(CAFES_MISSING_MESSAGE))
    else Ok(CafesAmong(cafes, ids))
  }

  /** The lookup succeeds exactly when every id names a stored cafe and no id is repeated; it
      then links exactly the listed cafes. */
  lemma ResolveOkIff(cafes: map<int, Cafe>, ids: seq<int>)
    ensures ResolveCafes(cafes, ids).Ok? <==> Distinct(ids) && forall i :: 0 <= i < |ids| ==> ids[i] in cafes
    ensures ResolveCafes(cafes, ids).Ok? ==> forall c :: c in ResolveCafes(cafes, ids).value <==> c in ids
  {
    FoundCountIff(cafes, ids);
  }

  /** The action `CRUDActions.create` inserts: the scalar fields of the payload and the given cafes. */
  function NewAction(id: int, actionIn: ActionsCreate, cafes: seq<int>): (r: Action)
    ensures r.id == id && r.description == actionIn.description && r.photoId == actionIn.photoId
    ensures r.isActive == actionIn.isActive && r.cafes == cafes
  {
    Action(id, actionIn.description, actionIn.photoId, actionIn.isActive, cafes)
  }

  /** The cafes a create links: none for an absent or empty list, otherwise the resolved ones. */
  function CreatedCafes(cafes: map<int, Cafe>, ids: Option<seq<int>>): (r: Outcome<seq<int>>)
    ensures (ids.None? || ids.value == []) ==> r == Ok([])
    ensures ids.Some? && ids.value != [] ==> r == ResolveCafes(cafes, ids.value)
  {
    if ids.Some? && ids.value != [] then ResolveCafes(cafes, ids.value) else Ok([])
  }

  /** `CRUDActions.create`: a ValueError for an unresolved cafe list, and then nothing is added. */
  method Create(db: Db, actionIn: ActionsCreate) returns (r: Outcome<Action>)
    requires db.Valid()
    modifies db`actions, db`nextId
    ensures db.Valid()
    ensures var linked := CreatedCafes(old(db.cafes), actionIn.cafesId);
            (linked.Fail? ==> r == Fail(linked.exc) && db.actions == old(db.actions))
            && (linked.Ok? ==> r.Ok? && r.value.id !in old(db.actions)
                               && r.value == NewAction(r.value.id, actionIn, linked.value)
                               && db.actions == old(db.actions)[r.value.id := r.value])
  {
    var linked := CreatedCafes(db.cafes, actionIn.cafesId);
    if linked.Fail? {
      return Fail(linked.exc);
    }
    var id := db.NewId();
    var action := NewAction(id, actionIn, linked.value);
    db.actions := db.actions[id := action];
    r := Ok(action);
  }

  // ------------------------------------------------------ simple fields by name

  datatype ActionField = DescriptionField | PhotoIdField | IsActiveField

  const ACTION_FIELDS := [DescriptionField, PhotoIdField, IsActiveField]

  function OptText(v: Option<string>): Value {
    if v.Some? then VStr(v.value) else VNone
  }

  /** `getattr(action, field)`. */
  function GetActionField(a: Action, f: ActionField): Value {
    match f
    case DescriptionField => VStr(a.description)
    case PhotoIdField => OptText(a.photoId)
    case IsActiveField => VBool(a.isActive)
  }

  predicate FitsAction(f: ActionField, v: Value) {
    match f
    case DescriptionField => v.VStr?
    case PhotoIdField => v.VStr? || v.VNone?
    case IsActiveField => v.VBool?
  }

  /** The value the payload dump holds for a field; None when the field was not sent. */
  function SentValue(p: ActionPatch, f: ActionField): (r: Option<Value>)
    ensures r.Some? ==> FitsAction(f, r.value)
  {
    match f
    case DescriptionField => if p.description.Some? then Some(VStr(p.description.value)) else None
    case PhotoIdField => if p.photoId.Set? then Some(OptText(p.photoId.value)) else None
    case IsActiveField => if p.isActive.Some? then Some(VBool(p.isActive.value)) else None
  }

  /** `setattr(action, field, value)`: that attribute changes, nothing else does. */
  function SetActionField(a: Action, f: ActionField, v: Value): (r: Action)
    requires FitsAction(f, v)
    ensures GetActionField(r, f) == v
    ensures forall g :: g != f ==> GetActionField(r, g) == GetActionField(a, g)
    ensures r.id == a.id && r.cafes == a.cafes
  {
    match f
    case DescriptionField => a.(description := v.s)
    case PhotoIdField => a.(photoId := if v.VStr? then Some(v.s) else None)
    case IsActiveField => a.(isActive := v.b)
  }

  /** The meaning of assigning the sent simple fields: each sent field takes the payload's value,
      the rest, the id and the cafes are kept. */
  function Patched(a: Action, p: ActionPatch): (r: Action)
    ensures r.id == a.id && r.cafes == a.cafes
    ensures r.description == (if p.description.Some? then p.description.value else a.description)
    ensures r.photoId == (if p.photoId.Set? then p.photoId.value else a.photoId)
    ensures r.isActive == (if p.isActive.Some? then p.isActive.value else a.isActive)
    ensures forall f :: GetActionField(r, f) == (if SentValue(p, f).Some? then SentValue(p, f).value
                                                else GetActionField(a, f))
  {
    Action(a.id,
           if p.description.Some? then p.description.value else a.description,
           if p.photoId.Set? then p.photoId.value else a.photoId,
           if p.isActive.Some? then p.isActive.value else a.isActive,
           a.cafes)
  }

  /** Sending nothing changes nothing; sending the same patch twice is sending it once. */
  lemma PatchLaws(a: Action, p: ActionPatch)
    ensures Patched(a, ActionPatch(None, Unset, None)) == a
    ensures Patched(Patched(a, p), p) == Patched(a, p)
  {
  }

  lemma ActionExtensionality(a: Action, b: Action)
    requires a.id == b.id && a.cafes == b.cafes
    requires forall f :: GetActionField(a, f) == GetActionField(b, f)
    ensures a == b
  {
    assert GetActionField(a, DescriptionField) == GetActionField(b, DescriptionField);
    assert GetActionField(a, PhotoIdField) == GetActionField(b, PhotoIdField);
    assert GetActionField(a, IsActiveField) == GetActionField(b, IsActiveField);
  }

  /** The loop `for field, value in dump.items(): setattr(action, field, value)`. */
  method AssignSimpleFields(a: Action, p: ActionPatch) returns (r: Action)
    ensures r == Patched(a, p)
  {
    r := a;
    var i := 0;
    while i < |ACTION_FIELDS|
      invariant 0 <= i <= |ACTION_FIELDS|
      invariant r.id == a.id && r.cafes == a.cafes
      invariant forall j :: 0 <= j < |ACTION_FIELDS| ==>
                  GetActionField(r, ACTION_FIELDS[j]) ==
                  (if j < i && SentValue(p, ACTION_FIELDS[j]).Some? then SentValue(p, ACTION_FIELDS[j]).value
                   else GetActionField(a, ACTION_FIELDS[j]))
    {
      var f := ACTION_FIELDS[i];
      var sent := SentValue(p, f);
      if sent.Some? {
        r := SetActionField(r, f, sent.value);
      }
      i := i + 1;
    }
    forall f ensures GetActionField(r, f) == GetActionField(Patched(a, p), f) {
      assert f == ACTION_FIELDS[0] || f == ACTION_FIELDS[1] || f == ACTION_FIELDS[2];
    }
    ActionExtensionality(r, Patched(a, p));
  }

  /** The cafes after an update: kept when `cafes_id` is not sent, cleared when it is null or
      empty, otherwise the resolved list. */
  function UpdatedCafes(cafes: map<int, Cafe>, current: seq<int>, ids: Patch<Option<seq<int>>>): (r: Outcome<seq<int>>)
    ensures ids.Unset? ==> r == Ok(current)
    ensures ids.Set? && (ids.value.None? || ids.value.value == []) ==> r == Ok([])
    ensures ids.Set? && ids.value.Some? && ids.value.value != [] ==> r == ResolveCafes(cafes, ids.value.value)
  {
    if ids.Unset? then Ok(current)
    else if ids.value.None? || ids.value.value == [] then Ok([])
    else ResolveCafes(cafes, ids.value.value)
  }

  /** `CRUDActions.update` on the stored action `actionId`. A ValueError is raised before the
      commit, so nothing is written then. */
  method Update(db: Db, actionId: int, actionIn: ActionsUpdate) returns (r: Outcome<Action>)
    requires db.Valid() && actionId in db.actions
    modifies db`actions
    ensures db.Valid()
    ensures var linked := UpdatedCafes(old(db.cafes), old(db.actions)[actionId].cafes, actionIn.cafesId);
            (linked.Fail? ==> r == Fail(linked.exc) && db.actions == old(db.actions))
            && (linked.Ok? ==> r == Ok(Patched(old(db.actions)[actionId], actionIn.fields).(cafes := linked.value))
                               && db.actions == old(db.actions)[actionId := r.value])
  {
    var action := AssignSimpleFields(db.actions[actionId], actionIn.fields);
    var linked := UpdatedCafes(db.cafes, action.cafes, actionIn.cafesId);
    if linked.Fail? {
      return Fail(linked.exc);
    }
    action := action.(cafes := linked.value);
    db.actions := db.actions[actionId := action];
    r := Ok(action);
  }
}
