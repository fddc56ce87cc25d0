/** The dish store: a filtered listing ordered by name and paged, with an unpaged total;
    creation and update that silently drop unknown cafe ids; soft deletion. */
module CrudDish {
  import opened Common
  import opened Entities

  /** The listing filters of `CRUDDish.get_multi`. */
  datatype DishQuery = DishQuery(onlyActive: Option<bool>, cafeId: Option<int>, q: Option<string>)

  /** `ORDER BY name`. */
  const BY_NAME: (Dish, Dish) -> bool := (a: Dish, b: Dish) => LexLe(a.name, b.name)

  lemma ByNameIsPreorder()
    ensures TotalPreorder(BY_NAME)
  {
    forall a: Dish, b: Dish ensures BY_NAME(a, b) || BY_NAME(b, a) {
      LexLeTotal(a.name, b.name);
    }
    forall a: Dish, b: Dish, c: Dish | BY_NAME(a, b) && BY_NAME(b, c) ensures BY_NAME(a, c) {
      LexLeTrans(a.name, b.name, c.name);
    }
  }

  /** One dish against the filters: only `only_active=True` filters by activity; a non-empty
      `q` must occur in the lowercased name; a truthy `cafe_id` must be linked. */
  predicate Matches(d: Dish, query: DishQuery) {
    (query.onlyActive == Some(true) ==> d.isActive)
    && (query.q.Some? && query.q.value != [] ==> Contains(Lower(d.name), Lower(query.q.value)))
    && (query.cafeId.Some? && query.cafeId.value != 0 ==> query.cafeId.value in d.cafes)
  }

  function Matching(dishes: map<int, Dish>, query: DishQuery): (r: seq<Dish>)
    ensures forall d :: d in r <==> d in dishes.Values && Matches(d, query)
  {
    Filter(Rows(dishes), (d: Dish) => Matches(d, query))
  }

  /** The matching dishes ordered by name. */
  function Ordered(dishes: map<int, Dish>, query: DishQuery): (r: seq<Dish>)
    ensures SortedBy(r, BY_NAME)
    ensures multiset(r) == multiset(Matching(dishes, query))
    ensures |r| == |Matching(dishes, query)|
    ensures forall d :: d in r <==> d in dishes.Values && Matches(d, query)
  {
    ByNameIsPreorder();
    var r := SortBy(Matching(dishes, query), BY_NAME);
    assert |r| == |multiset(r)|;
    assert forall d :: d in r <==> d in multiset(r);
    r
  }

  /** `CRUDDish.get_multi`: the count of all matches, and one page of them ordered by name. */
  function GetMulti(dishes: map<int, Dish>, query: DishQuery, limit: nat, offset: nat): (r: (nat, seq<Dish>))
    ensures r.0 == |Matching(dishes, query)|
    ensures |r.1| <= limit && SortedBy(r.1, BY_NAME)
    ensures forall d :: d in r.1 ==> d in dishes.Values && Matches(d, query)
    ensures offset + limit <= r.0 ==> r.1 == Ordered(dishes, query)[offset..offset + limit]
    ensures offset < r.0 < offset + limit ==> r.1 == Ordered(dishes, query)[offset..]
    ensures offset >= r.0 ==> r.1 == []
  {
    var all := Ordered(dishes, query);
    PageSortedBy(all, offset, limit, BY_NAME);
    (|all|, Page(all, offset, limit))
  }

  /** The total does not depend on the page asked for. */
  lemma TotalIgnoresPaging(dishes: map<int, Dish>, query: DishQuery, limit: nat, offset: nat, limit2: nat, offset2: nat)
    ensures GetMulti(dishes, query, limit, offset).0 == GetMulti(dishes, query, limit2, offset2).0
    ensures GetMulti(dishes, query, limit, offset).0 >= |GetMulti(dishes, query, limit, offset).1|
  {
    var all := Ordered(dishes, query);
    assert |Page(all, offset, limit)| <= |all|;
  }

  /** `CRUDDish.create`: an active, available dish linked to the stored cafes among `cafe_ids`;
      `now` stands for the creation timestamp. */
  method Create(db: Db, name: string, description: Option<string>, price: int, photo: Option<string>,
                cafeIds: seq<int>, now: int) returns (r: Dish)
    requires db.Valid()
    modifies db`dishes, db`nextId
    ensures db.Valid()
    ensures r.id !in old(db.dishes) && db.dishes == old(db.dishes)[r.id := r]
    ensures r == Dish(r.id, name, description, price, photo, true, true, now, CafesAmong(old(db.cafes), cafeIds), None)
  {
    var id := db.NewId();
    var cafes: seq<int> := [];
    if cafeIds != [] {
      cafes := CafesAmong(db.cafes, cafeIds);
    }
    r := Dish(id, name, description, price, photo, true, true, now, cafes, None);
    db.dishes := db.dishes[id := r];
  }

  /** `CRUDDish.update`: a None argument leaves its field; a non-None `cafe_ids` replaces the
      cafes with the stored ones among it, so an empty list clears them. */
  method Update(db: Db, dishId: int, name: Option<string>, description: Option<string>, price: Option<int>,
                photo: Option<string>, active: Option<bool>, cafeIds: Option<seq<int>>) returns (r: Dish)
    requires db.Valid() && dishId in db.dishes
    modifies db`dishes
    ensures db.Valid()
    ensures var d := old(db.dishes)[dishId];
            r.id == d.id && r.isAvailable == d.isAvailable && r.createdAt == d.createdAt && r.cafeId == d.cafeId
            && r.name == (if name.Some? then name.value else d.name)
            && r.description == (if description.Some? then description else d.description)
            && r.price == (if price.Some? then price.value else d.price)
            && r.photoId == (if photo.Some? then photo else d.photoId)
            && r.isActive == (if active.Some? then active.value else d.isActive)
            && r.cafes == (if cafeIds.Some? then CafesAmong(old(db.cafes), cafeIds.value) else d.cafes)
    ensures db.dishes == old(db.dishes)[dishId := r]
  {
    r := db.dishes[dishId];
    if name.Some? {
      r := r.(name := name.value);
    }
    if description.Some? {
      r := r.(description := description);
    }
    if price.Some? {
      r := r.(price := price.value);
    }
    if photo.Some? {
      r := r.(photoId := photo);
    }
    if active.Some? {
      r := r.(isActive := active.value);
    }
    if cafeIds.Some? {
      var cafes: seq<int> := [];
      if cafeIds.value != [] {
        cafes := CafesAmong(db.cafes, cafeIds.value);
      }
      r := r.(cafes := cafes);
    }
    db.PutDish(r);
  }

  /** `CRUDDish.soft_delete`: the dish becomes inactive and nothing else changes. */
  method SoftDelete(db: Db, dishId: int)
    requires db.Valid() && dishId in db.dishes
    modifies db`dishes
    ensures db.Valid()
    ensures db.dishes == old(db.dishes)[dishId := old(db.dishes)[dishId].(isActive := false)]
  {
    db.dishes := db.dishes[dishId := db.dishes[dishId].(isActive := false)];
  }
}
