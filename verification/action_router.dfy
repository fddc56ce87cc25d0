/** The promotion router: the response shape, and the create, list, get, update and delete
    handlers that work on the store directly. */
module ActionRouter {
  import opened Common
  import opened Entities
  import CrudActions
  import CrudAction

  const NOT_FOUND_MESSAGE := "Action not found"

  /** `ActionOut`. */
  datatype ActionOut = ActionOut(id: int, description: string, photoId: Option<string>, active: bool, cafeIds: seq<int>)

  /** `ActionCreate`: `active` defaults to true and `cafe_ids` to the empty list. */
  datatype ActionCreate = ActionCreate(description: string, photoId: Option<string>, active: bool, cafeIds: seq<int>)

  /** `ActionUpdate`: the simple fields, and `cafe_ids` whose None means "keep". */
  datatype ActionUpdate = ActionUpdate(fields: CrudActions.ActionPatch, cafeIds: Option<seq<int>>)

  /** `to_out`: every column, and the ids of the linked cafes in link order. */
  function ToOut(a: Action): (r: ActionOut)
    ensures r.id == a.id && r.cafeIds == a.cafes
  {
    ActionOut(a.id, a.description, a.photoId, a.isActive, a.cafes)
  }

  /** The action a response describes. */
  function FromOut(o: ActionOut): Action {
    Action(o.id, o.description, o.photoId, o.active, o.cafeIds)
  }

  /** The response loses nothing: the action can be read back from it. */
  lemma OutRoundTrip(a: Action, o: ActionOut)
    ensures FromOut(ToOut(a)) == a
    ensures ToOut(FromOut(o)) == o
  {
  }

  function ToOutAll(xs: seq<Action>): (r: seq<ActionOut>)
    ensures |r| == |xs| && forall i :: 0 <= i < |xs| ==> r[i] == ToOut(xs[i])
  {
    seq(|xs|, i requires 0 <= i < |xs| => ToOut(xs[i]))
  }

  /** Every action of a list has its response in the mapped list. */
  lemma ToOutAllCovers(xs: seq<Action>)
    ensures forall a :: a in xs ==> ToOut(a) in ToOutAll(xs)
  {
    forall a | a in xs ensures ToOut(a) in ToOutAll(xs) {
      var i :| 0 <= i < |xs| && xs[i] == a;
      assert ToOutAll(xs)[i] == ToOut(a);
    }
  }

  /** The listing filters: a non-empty `q` is a case-insensitive substring of the description;
      a given `active` must equal the flag; a given `cafe_id`, zero included, must be linked. */
  predicate ListMatches(a: Action, cafeId: Option<int>, q: Option<string>, active: Option<bool>) {
    (q.Some? && q.value != [] ==> Contains(Lower(a.description), Lower(q.value)))
    && (active.Some? ==> a.isActive == active.value)
    && (cafeId.Some? ==> cafeId.value in a.cafes)
  }

  /** Every stored action the listing filters accept, in ascending id order. */
  function Listed(actions: map<int, Action>, cafeId: Option<int>, q: Option<string>, active: Option<bool>)
    : (r: seq<Action>)
    ensures forall a :: a in r <==> a in actions.Values && ListMatches(a, cafeId, q, active)
  {
    Filter(Rows(actions), (a: Action) => ListMatches(a, cafeId, q, active))
  }

  /** The responses of one page of `rows`: each describes a row, and the page is the slice at
      `skip`, the shorter tail, or nothing. */
  lemma PageResponses(rows: seq<Action>, skip: nat, limit: nat)
    ensures var r := ToOutAll(Page(rows, skip, limit));
            (forall o :: o in r ==> FromOut(o) in rows)
            && (skip + limit <= |rows| ==> r == ToOutAll(rows[skip..skip + limit]))
            && (skip < |rows| < skip + limit ==> r == ToOutAll(rows[skip..]))
            && (skip >= |rows| ==> r == [])
            && (skip == 0 && |rows| <= limit ==> forall a :: a in rows ==> ToOut(a) in r)
  {
    var page := Page(rows, skip, limit);
    var r := ToOutAll(page);
    forall o | o in r ensures FromOut(o) in rows {
      var i :| 0 <= i < |r| && r[i] == o;
      OutRoundTrip(page[i], o);
    }
    ToOutAllCovers(page);
    if skip == 0 && |rows| <= limit {
      assert rows[0..] == rows;
      assert rows[0..|rows|] == rows;
    }
  }

  /** `list_actions`: the filters, then `skip` and `limit` over the stored order (taken as id order). */
  function ListActions(actions: map<int, Action>, cafeId: Option<int>, q: Option<string>, active: Option<bool>,
                       skip: nat, limit: nat): (r: seq<ActionOut>)
    requires 1 <= limit <= 200
    ensures |r| <= limit
    ensures forall o :: o in r ==> FromOut(o) in actions.Values && ListMatches(FromOut(o), cafeId, q, active)
    ensures var rows := Listed(actions, cafeId, q, active);
            skip + limit <= |rows| ==> r == ToOutAll(rows[skip..skip + limit])
    ensures var rows := Listed(actions, cafeId, q, active);
            skip < |rows| < skip + limit ==> r == ToOutAll(rows[skip..])
    ensures skip >= |Listed(actions, cafeId, q, active)| ==> r == []
    ensures skip == 0 && |Listed(actions, cafeId, q, active)| <= limit ==>
              forall a :: a in actions.Values && ListMatches(a, cafeId, q, active) ==> ToOut(a) in r
  {
    var rows := Listed(actions, cafeId, q, active);
    PageResponses(rows, skip, limit);
    ToOutAll(Page(rows, skip, limit))
  }

  /** The router's filters agree with the store's when only active actions are asked for and the
      cafe id is truthy; `active=False` in the router keeps only inactive ones, where the store
      filters nothing. */
  lemma ListFiltersAgainstStore(a: Action, cafeId: Option<int>, q: Option<string>)
    requires cafeId != Some(0)
    ensures ListMatches(a, cafeId, q, Some(true)) <==> CrudAction.Matches(a, CrudAction.ActionQuery(Some(true), cafeId, q))
    ensures ListMatches(a, cafeId, q, Some(false)) ==> !a.isActive
    ensures CrudAction.Matches(a, CrudAction.ActionQuery(Some(false), cafeId, q)) <==> ListMatches(a, cafeId, q, None)
  {
  }

  /** `create_action`: the payload's fields, linked to the stored cafes among `cafe_ids`. */
  method CreateAction(db: Db, data: ActionCreate) returns (r: ActionOut)
    requires db.Valid()
    modifies db`actions, db`nextId
    ensures db.Valid()
    ensures r.id !in old(db.actions) && db.actions == old(db.actions)[r.id := FromOut(r)]
    ensures r.description == data.description && r.photoId == data.photoId && r.active == data.active
    ensures r.cafeIds == CafesAmong(old(db.cafes), data.cafeIds)
  {
    var id := db.NewId();
    var cafes: seq<int> := [];
    if data.cafeIds != [] {
      cafes := CafesAmong(db.cafes, data.cafeIds);
    }
    var action := Action(id, data.description, data.photoId, data.active, cafes);
    db.actions := db.actions[id := action];
    OutRoundTrip(action, ToOut(action));
    r := ToOut(action);
  }

  /** `get_action`: 404 for an unknown id; inactive actions are returned. */
  function GetAction(actions: map<int, Action>, actionId: int): (r: Outcome<ActionOut>)
    ensures r.Fail? <==> actionId !in actions
    ensures r.Fail? ==> r == HttpFail(404, NOT_FOUND_MESSAGE)
    ensures r.Ok? ==> FromOut(r.value) == actions[actionId]
  {
    if actionId !in actions then HttpFail(404, NOT_FOUND_MESSAGE) else Ok(ToOut(actions[actionId]))
  }

  /** `update_action`: 404 for an unknown id; the sent simple fields are assigned; a non-None
      `cafe_ids` replaces the cafes with the stored ones among it. */
  method UpdateAction(db: Db, actionId: int, data: ActionUpdate) returns (r: Outcome<ActionOut>)
    requires db.Valid()
    modifies db`actions
    ensures db.Valid()
    ensures actionId !in old(db.actions) ==> r == HttpFail(404, NOT_FOUND_MESSAGE) && db.actions == old(db.actions)
    ensures actionId in old(db.actions) ==>
              var a := CrudActions.Patched(old(db.actions)[actionId], data.fields);
              var updated := if data.cafeIds.Some? then a.(cafes := CafesAmong(old(db.cafes), data.cafeIds.value)) else a;
              r == Ok(ToOut(updated)) && db.actions == old(db.actions)[actionId := updated]
  {
    if actionId !in db.actions {
      return HttpFail(404, NOT_FOUND_MESSAGE);
    }
    var action := CrudActions.AssignSimpleFields(db.actions[actionId], data.fields);
    if data.cafeIds.Some? {
      action := action.(cafes := CafesAmong(db.cafes, data.cafeIds.value));
    }
    db.actions := db.actions[actionId := action];
    r := Ok(ToOut(action));
  }

  /** `delete_action`: 404 for an unknown id; otherwise the action becomes inactive and nothing
      else changes. */
  method DeleteAction(db: Db, actionId: int) returns (r: Outcome<()>)
    requires db.Valid()
    modifies db`actions
    ensures db.Valid()
    ensures actionId !in old(db.actions) ==> r == HttpFail(404, NOT_FOUND_MESSAGE) && db.actions == old(db.actions)
    ensures actionId in old(db.actions) ==>
              r == Ok(()) && db.actions == old(db.actions)[actionId := old(db.actions)[actionId].(isActive := false)]
  {
    if actionId !in db.actions {
      return HttpFail(404, NOT_FOUND_MESSAGE);
    }
    db.actions := db.actions[actionId := db.actions[actionId].(isActive := false)];
    r := Ok(());
  }
}
