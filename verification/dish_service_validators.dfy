/** The second dish service: the same lookup and update guards, creation that resolves the
    requested cafes itself and refuses the dish when their count differs, and an update whose
    store call uses a keyword the store does not accept. */
module DishServiceValidators {
  import opened Common
  import opened Entities
  import opened ApiExceptions
  import DishService

  const CAFES_MISSING_MESSAGE := "Некоторые кафе не существуют"

  /** The create payload the service reads. */
  datatype DishIn = DishIn(name: string, description: Option<string>, photoId: Option<string>,
                           price: int, cafesId: seq<int>)

  /** The cafe check of `create`: the found cafes must be as many as the requested ids. A
      repeated id therefore fails even when the cafe exists. */
  function CreateCheck(cafes: map<int, Cafe>, ids: seq<int>): (r: Outcome<seq<int>>)
    ensures r.Ok? <==> Distinct(ids) && forall i :: 0 <= i < |ids| ==> ids[i] in cafes
    ensures r.Fail? ==> r == Err("CAFE_NOT_FOUND", CAFES_MISSING_MESSAGE, 404)
    ensures r.Ok? ==> StrictlyAscending(r.value) && forall c :: c in r.value <==> c in ids
  {
    FoundCountIff(cafes, ids);
    if |FoundCafes(cafes, ids)| != |ids| then Err("CAFE_NOT_FOUND", CAFES_MISSING_MESSAGE, 404)
    else Ok(CafesAmong(cafes, ids))
  }

  /** Naming a stored cafe twice is refused. */
  lemma RepeatedCafeRefused(cafes: map<int, Cafe>, ids: seq<int>, i: int)
    requires 0 <= i < |ids|
    ensures CreateCheck(cafes, ids + [ids[i]]).Fail?
  {
    assert (ids + [ids[i]])[i] == (ids + [ids[i]])[|ids|];
  }

  /** `DishService.create`: the cafe check, then a new dish with the payload's fields, the
      column defaults (active, available), `now` as its creation time and the found cafes. */
  method Create(db: Db, dishIn: DishIn, now: int) returns (r: Outcome<Dish>)
    requires db.Valid()
    modifies db`dishes, db`nextId
    ensures db.Valid()
    ensures var check := CreateCheck(old(db.cafes), dishIn.cafesId);
            (check.Fail? ==> r == Fail(check.exc) && db.dishes == old(db.dishes))
            && (check.Ok? ==>
                  r.Ok? && r.value.id !in old(db.dishes)
                  && r.value == Dish(r.value.id, dishIn.name, dishIn.description, dishIn.price, dishIn.photoId,
                                     true, true, now, check.value, None)
                  && db.dishes == old(db.dishes)[r.value.id := r.value])
  {
    var check := CreateCheck(db.cafes, dishIn.cafesId);
    if check.Fail? {
      return Fail(check.exc);
    }
    var id := db.NewId();
    var dish := Dish(id, dishIn.name, dishIn.description, dishIn.price, dishIn.photoId, true, true, now,
                     check.value, None);
    db.dishes := db.dishes[id := dish];
    r := Ok(dish);
  }

  /** `DishService.update` as written: the guards, then `self.crud.update(obj_current=...)`.
      The store's update takes the object as `db_obj`, so the call raises TypeError. */
  function Update(lookup: DishService.DishLookup, dishId: int): (r: Outcome<Dish>)
    ensures DishService.UpdateGuard(lookup, dishId).Fail? ==> r == Fail(DishService.UpdateGuard(lookup, dishId).exc)
    ensures DishService.UpdateGuard(lookup, dishId).Ok? ==> r == Fail(Uncaught("TypeError"))
  {
    var _ :- DishService.UpdateGuard(lookup, dishId);
    Fail(Uncaught("TypeError"))
  }

  /** No input makes this update succeed, whereas the update of `DishService` in api/dish_service.py,
      which passes `db_obj`, succeeds for every stored active dish. */
  lemma UpdateNeverSucceeds<U>(lookup: DishService.DishLookup, store: (Dish, U) -> Dish, dishId: int, dishIn: U)
    ensures Update(lookup, dishId).Fail?
    ensures lookup(dishId).Some? && lookup(dishId).value.isActive ==>
              Update(lookup, dishId) == Fail(Uncaught("TypeError"))
              && DishService.Update(lookup, store, dishId, dishIn) == Ok(store(lookup(dishId).value, dishIn))
  {
  }
}
