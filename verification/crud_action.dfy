/** The second promotion store: a filtered, id-ordered, paged listing with an unpaged total,
    creation and update that silently drop unknown cafe ids, and soft deletion. */
module CrudAction {
  import opened Common
  import opened Entities

  /** The listing filters of `CRUDAction.get_multi`. */
  datatype ActionQuery = ActionQuery(onlyActive: Option<bool>, cafeId: Option<int>, q: Option<string>)

  /** One action against the filters: only `only_active=True` filters by activity; a non-empty
      `q` must occur in the lowercased description; a truthy `cafe_id` must be linked. */
  predicate Matches(a: Action, query: ActionQuery) {
    (query.onlyActive == Some(true) ==> a.isActive)
    && (query.q.Some? && query.q.value != [] ==> Contains(Lower(a.description), Lower(query.q.value)))
    && (query.cafeId.Some? && query.cafeId.value != 0 ==> query.cafeId.value in a.cafes)
  }

  /** Every matching action, in ascending id order. */
  function Matching(actions: map<int, Action>, query: ActionQuery): (r: seq<Action>)
    ensures forall a :: a in r <==> a in actions.Values && Matches(a, query)
  {
    Filter(Rows(actions), (a: Action) => Matches(a, query))
  }

  /** `CRUDAction.get_multi`: the count of all matches, and one page of them ordered by id. */
  function GetMulti(actions: map<int, Action>, query: ActionQuery, limit: nat, offset: nat): (r: (nat, seq<Action>))
    ensures r.0 == |Matching(actions, query)|
    ensures |r.1| <= limit
    ensures forall a :: a in r.1 ==> a in actions.Values && Matches(a, query)
    ensures offset + limit <= r.0 ==> r.1 == Matching(actions, query)[offset..offset + limit]
    ensures offset < r.0 < offset + limit ==> r.1 == Matching(actions, query)[offset..]
    ensures offset >= r.0 ==> r.1 == []
  {
    var all := Matching(actions, query);
    (|all|, Page(all, offset, limit))
  }

  /** The page is ordered by id, and the total does not depend on the page. */
  lemma ListingOrderAndTotal(actions: map<int, Action>, query: ActionQuery, limit: nat, offset: nat,
                             limit2: nat, offset2: nat)
    requires forall k :: k in actions ==> actions[k].id == k
    ensures AscendingBy(GetMulti(actions, query, limit, offset).1, (a: Action) => a.id)
    ensures GetMulti(actions, query, limit, offset).0 == GetMulti(actions, query, limit2, offset2).0
  {
    var key := (a: Action) => a.id;
    RowsAscending(actions, key);
    FilterAscending(Rows(actions), (a: Action) => Matches(a, query), key);
    PageAscending(Matching(actions, query), offset, limit, key);
  }

  /** Without filters every action matches; an empty `q` and a zero `cafe_id` filter nothing. */
  lemma FalsyFiltersIgnored(actions: map<int, Action>, onlyActive: Option<bool>)
    requires onlyActive != Some(true)
    ensures forall a :: a in Matching(actions, ActionQuery(onlyActive, Some(0), Some(""))) <==> a in actions.Values
  {
  }

  /** `CRUDAction.create`: an active action linked to the stored cafes among `cafe_ids`. */
  method Create(db: Db, description: string, photoId: Option<string>, cafeIds: seq<int>) returns (r: Action)
    requires db.Valid()
    modifies db`actions, db`nextId
    ensures db.Valid()
    ensures r.id !in old(db.actions) && db.actions == old(db.actions)[r.id := r]
    ensures r.description == description && r.photoId == photoId && r.isActive
    ensures r.cafes == CafesAmong(old(db.cafes), cafeIds)
  {
    var id := db.NewId();
    var cafes: seq<int> := [];
    if cafeIds != [] {
      cafes := CafesAmong(db.cafes, cafeIds);
    }
    r := Action(id, description, photoId, true, cafes);
    db.actions := db.actions[id := r];
  }

  /** Create never fails on cafe ids: it links exactly the ones that exist. */
  lemma CreateDropsUnknownCafes(cafes: map<int, Cafe>, cafeIds: seq<int>, c: int)
    requires c in cafeIds
    ensures c in CafesAmong(cafes, cafeIds) <==> c in cafes
  {
  }

  /** `CRUDAction.update`: a None argument leaves its field; a non-None `cafe_ids` replaces the
      cafes with the stored ones among it, so an empty list clears them. A None photo cannot
      clear the stored photo. */
  method Update(db: Db, actionId: int, description: Option<string>, photoId: Option<string>,
                active: Option<bool>, cafeIds: Option<seq<int>>) returns (r: Action)
    requires db.Valid() && actionId in db.actions
    modifies db`actions
    ensures db.Valid()
    ensures var a := old(db.actions)[actionId];
            r.id == a.id
            && r.description == (if description.Some? then description.value else a.description)
            && r.photoId == (if photoId.Some? then photoId else a.photoId)
            && r.isActive == (if active.Some? then active.value else a.isActive)
            && r.cafes == (if cafeIds.Some? then CafesAmong(old(db.cafes), cafeIds.value) else a.cafes)
    ensures db.actions == old(db.actions)[actionId := r]
  {
    r := db.actions[actionId];
    if description.Some? {
      r := r.(description := description.value);
    }
    if photoId.Some? {
      r := r.(photoId := photoId);
    }
    if active.Some? {
      r := r.(isActive := active.value);
    }
    if cafeIds.Some? {
      var cafes: seq<int> := [];
      if cafeIds.value != [] {
        cafes := CafesAmong(db.cafes, cafeIds.value);
      }
      r := r.(cafes := cafes);
    }
    db.PutAction(r);
  }

  /** `CRUDAction.soft_delete`: the action becomes inactive and nothing else changes. */
  method SoftDelete(db: Db, actionId: int)
    requires db.Valid() && actionId in db.actions
    modifies db`actions
    ensures db.Valid()
    ensures db.actions == old(db.actions)[actionId := old(db.actions)[actionId].(isActive := false)]
  {
    db.actions := db.actions[actionId := db.actions[actionId].(isActive := false)];
  }
}
