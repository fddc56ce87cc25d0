/** The dish repository: the filtered listing newest first, lookup, creation, update that
    replaces the cafe set when given, and soft deletion. */
module DishRepository {
  import opened Common
  import opened Entities

  /** The filters of `DishRepository.list`; None is a filter that was not given. */
  datatype DishFilter = DishFilter(
    active: Option<bool>,
    cafeId: Option<int>,
    q: Option<string>,
    minPrice: Option<int>,
    maxPrice: Option<int>,
    available: Option<bool>)

  /** `ORDER BY created_at DESC`. */
  const NEWEST_FIRST: (Dish, Dish) -> bool := (a: Dish, b: Dish) => a.createdAt >= b.createdAt

  lemma NewestFirstIsPreorder()
    ensures TotalPreorder(NEWEST_FIRST)
  {
  }

  /** One dish against the filters: flags by equality when given; a non-empty `q`, stripped,
      must occur in the name ignoring case; both price bounds are inclusive; a given cafe must
      be linked. */
  predicate Matches(d: Dish, f: DishFilter) {
    (f.active.Some? ==> d.isActive == f.active.value)
    && (f.available.Some? ==> d.isAvailable == f.available.value)
    && (f.q.Some? && f.q.value != [] ==> Contains(Lower(d.name), Lower(Strip(f.q.value))))
    && (f.minPrice.Some? ==> d.price >= f.minPrice.value)
    && (f.maxPrice.Some? ==> d.price <= f.maxPrice.value)
    && (f.cafeId.Some? ==> f.cafeId.value in d.cafes)
  }

  /** The matching dishes, newest first. */
  function Ordered(dishes: map<int, Dish>, f: DishFilter): (r: seq<Dish>)
    ensures SortedBy(r, NEWEST_FIRST)
    ensures forall d :: d in r <==> d in dishes.Values && Matches(d, f)
    ensures (forall k :: k in dishes ==> dishes[k].id == k) ==> NoDup(r)
  {
    NewestFirstIsPreorder();
    var matching := Filter(Rows(dishes), (d: Dish) => Matches(d, f));
    var r := SortBy(matching, NEWEST_FIRST);
    assert forall d :: d in r <==> d in multiset(r);
    assert forall d :: d in matching <==> d in multiset(matching);
    SortedKeepsNoDup(dishes, (d: Dish) => Matches(d, f), r);
    r
  }

  lemma SortedKeepsNoDup(dishes: map<int, Dish>, p: Dish -> bool, r: seq<Dish>)
    requires multiset(r) == multiset(Filter(Rows(dishes), p))
    ensures (forall k :: k in dishes ==> dishes[k].id == k) ==> NoDup(r)
  {
    if forall k :: k in dishes ==> dishes[k].id == k {
      var matching := Filter(Rows(dishes), p);
      var key := (d: Dish) => d.id;
      RowsAscending(dishes, key);
      FilterAscending(Rows(dishes), p, key);
      assert NoDup(matching);
      NoDupMultiset(matching);
      NoDupMultiset(r);
    }
  }

  /** `DishRepository.list`: the ordered matches, then `offset` and `limit`. */
  function List(dishes: map<int, Dish>, f: DishFilter, limit: nat, offset: nat): (r: seq<Dish>)
    ensures |r| <= limit && SortedBy(r, NEWEST_FIRST)
    ensures forall d :: d in r ==> d in dishes.Values && Matches(d, f)
    ensures offset + limit <= |Ordered(dishes, f)| ==> r == Ordered(dishes, f)[offset..offset + limit]
    ensures offset < |Ordered(dishes, f)| < offset + limit ==> r == Ordered(dishes, f)[offset..]
    ensures offset >= |Ordered(dishes, f)| ==> r == []
    ensures (forall k :: k in dishes ==> dishes[k].id == k) ==> NoDup(r)
  {
    var all := Ordered(dishes, f);
    PageSortedBy(all, offset, limit, NEWEST_FIRST);
    PageKeepsNoDup(all, offset, limit);
    Page(all, offset, limit)
  }

  lemma PageKeepsNoDup(all: seq<Dish>, offset: nat, limit: nat)
    ensures NoDup(all) ==> NoDup(Page(all, offset, limit))
  {
    var r := Page(all, offset, limit);
    if offset < |all| {
      assert forall i :: 0 <= i < |r| ==> r[i] == all[offset + i];
    }
  }

  /** A price range filter is a closed interval: a dish priced exactly at a bound is kept. */
  lemma PriceBoundsInclusive(d: Dish, f: DishFilter)
    requires f.minPrice == Some(d.price) && f.maxPrice == Some(d.price)
    requires f.active.None? && f.available.None? && f.q.None? && f.cafeId.None?
    ensures Matches(d, f)
  {
  }

  /** `DishRepository.get`. */
  function Get(dishes: map<int, Dish>, dishId: int): (r: Option<Dish>)
    ensures r.Some? <==> dishId in dishes
    ensures r.Some? ==> r.value == dishes[dishId]
  {
    if dishId in dishes then Some(dishes[dishId]) else None
  }

  /** `_load_cafes`: the stored cafes among `ids`; unknown ids are ignored, none for an empty list. */
  function LoadCafes(cafes: map<int, Cafe>, ids: seq<int>): (r: seq<int>)
    ensures ids == [] ==> r == []
    ensures forall c :: c in r <==> c in ids && c in cafes
  {
    if ids == [] then [] else CafesAmong(cafes, ids)
  }

  /** The values a create sets. */
  datatype DishCreate = DishCreate(name: string, price: int, description: Option<string>, isAvailable: bool,
                                   mediaId: Option<string>, active: bool, cafeIds: Option<seq<int>>)

  /** `DishRepository.create`; `now` stands for the creation timestamp. */
  method Create(db: Db, dishIn: DishCreate, now: int) returns (r: Dish)
    requires db.Valid()
    modifies db`dishes, db`nextId
    ensures db.Valid()
    ensures r.id !in old(db.dishes) && db.dishes == old(db.dishes)[r.id := r]
    ensures r.name == dishIn.name && r.price == dishIn.price && r.description == dishIn.description
    ensures r.isAvailable == dishIn.isAvailable && r.photoId == dishIn.mediaId && r.isActive == dishIn.active
    ensures r.createdAt == now && r.cafeId.None?
    ensures r.cafes == (if dishIn.cafeIds.Some? then LoadCafes(old(db.cafes), dishIn.cafeIds.value) else [])
  {
    var id := db.NewId();
    r := Dish(id, dishIn.name, dishIn.description, dishIn.price, dishIn.mediaId, dishIn.active,
              dishIn.isAvailable, now, [], None);
    if dishIn.cafeIds.Some? && dishIn.cafeIds.value != [] {
      r := r.(cafes := LoadCafes(db.cafes, dishIn.cafeIds.value));
    }
    db.dishes := db.dishes[id := r];
  }

  /** The arguments of an update; None leaves the field as it is. */
  datatype DishUpdate = DishUpdate(name: Option<string>, price: Option<int>, description: Option<string>,
                                   isAvailable: Option<bool>, mediaId: Option<string>, active: Option<bool>,
                                   cafeIds: Option<seq<int>>)

  /** The meaning of an update: each non-None argument replaces its field; a non-None `cafe_ids`
      replaces the cafe set with the stored cafes among it; id, timestamp and the rest stay. */
  function Updated(cafes: map<int, Cafe>, d: Dish, u: DishUpdate): (r: Dish)
    ensures r.id == d.id && r.createdAt == d.createdAt && r.cafeId == d.cafeId
    ensures r.name == (if u.name.Some? then u.name.value else d.name)
    ensures r.price == (if u.price.Some? then u.price.value else d.price)
    ensures r.description == (if u.description.Some? then u.description else d.description)
    ensures r.isAvailable == (if u.isAvailable.Some? then u.isAvailable.value else d.isAvailable)
    ensures r.photoId == (if u.mediaId.Some? then u.mediaId else d.photoId)
    ensures r.isActive == (if u.active.Some? then u.active.value else d.isActive)
    ensures r.cafes == (if u.cafeIds.Some? then LoadCafes(cafes, u.cafeIds.value) else d.cafes)
  {
    var kept := d.(name := if u.name.Some? then u.name.value else d.name,
                   price := if u.price.Some? then u.price.value else d.price,
                   description := if u.description.Some? then u.description else d.description,
                   isAvailable := if u.isAvailable.Some? then u.isAvailable.value else d.isAvailable,
                   photoId := if u.mediaId.Some? then u.mediaId else d.photoId,
                   isActive := if u.active.Some? then u.active.value else d.isActive);
    if u.cafeIds.Some? then kept.(cafes := LoadCafes(cafes, u.cafeIds.value)) else kept
  }

  /** An update without arguments changes nothing; repeating an update changes nothing more. */
  lemma UpdateLaws(cafes: map<int, Cafe>, d: Dish, u: DishUpdate)
    ensures Updated(cafes, d, DishUpdate(None, None, None, None, None, None, None)) == d
    ensures Updated(cafes, Updated(cafes, d, u), u) == Updated(cafes, d, u)
  {
  }

  /** `DishRepository.update`: the assignments of `Updated` on the stored dish, written back. */
  method Update(db: Db, dishId: int, u: DishUpdate) returns (r: Dish)
    requires db.Valid() && dishId in db.dishes
    modifies db`dishes
    ensures db.Valid()
    ensures r == Updated(old(db.cafes), old(db.dishes)[dishId], u)
    ensures db.dishes == old(db.dishes)[dishId := r]
  {
    r := Updated(db.cafes, db.dishes[dishId], u);
    db.PutDish(r);
  }

  /** `DishRepository.soft_delete`: the dish becomes inactive and nothing else changes. */
  method SoftDelete(db: Db, dishId: int)
    requires db.Valid() && dishId in db.dishes
    modifies db`dishes
    ensures db.Valid()
    ensures db.dishes == old(db.dishes)[dishId := old(db.dishes)[dishId].(isActive := false)]
  {
    db.dishes := db.dishes[dishId := db.dishes[dishId].(isActive := false)];
  }
}
