/** The dish service over an injected store: lookup with NOT_FOUND, and an update that is
    refused for a missing or an inactive dish before the store is asked to write. */
module DishService {
  import opened Common
  import opened Entities
  import opened ApiExceptions

  const DISH_INACTIVE_MESSAGE := "Нельзя изменять неактивное блюдо"

  /** `self.crud.get(obj_id=...)` of the injected store. */
  type DishLookup = int -> Option<Dish>

  function DishNotFoundMessage(dishId: int): string {
    "Блюдо id=" + IntToString(dishId) + " не найдено"
  }

  /** `DishService.get`: the dish the store finds, or NOT_FOUND 404 naming the id. */
  function Get(lookup: DishLookup, dishId: int): (r: Outcome<Dish>)
    ensures r.Ok? <==> lookup(dishId).Some?
    ensures r.Ok? ==> r.value == lookup(dishId).value
    ensures r.Fail? ==> r == Err("NOT_FOUND", DishNotFoundMessage(dishId), 404)
  {
    match lookup(dishId)
    case None => Err("NOT_FOUND", DishNotFoundMessage(dishId), 404)
    case Some(dish) => Ok(dish)
  }

  /** The guards of `DishService.update`, in order: missing is 404, inactive is DISH_INACTIVE 403. */
  function UpdateGuard(lookup: DishLookup, dishId: int): (r: Outcome<Dish>)
    ensures Get(lookup, dishId).Fail? ==> r == Get(lookup, dishId)
    ensures lookup(dishId).Some? && !lookup(dishId).value.isActive ==>
              r == Err("DISH_INACTIVE", DISH_INACTIVE_MESSAGE, 403)
    ensures r.Ok? <==> lookup(dishId).Some? && lookup(dishId).value.isActive
    ensures r.Ok? ==> r.value == lookup(dishId).value
  {
    var dish :- Get(lookup, dishId);
    if !dish.isActive then Err("DISH_INACTIVE", DISH_INACTIVE_MESSAGE, 403)
    else Ok(dish)
  }

  /** `DishService.update`: after the guards, the store's update (`update(db_obj=dish, ...)`) of
      the found dish, whose result is returned. */
  function Update<U>(lookup: DishLookup, store: (Dish, U) -> Dish, dishId: int, dishIn: U): (r: Outcome<Dish>)
    ensures UpdateGuard(lookup, dishId).Fail? ==> r == Fail(UpdateGuard(lookup, dishId).exc)
    ensures UpdateGuard(lookup, dishId).Ok? ==> r == Ok(store(lookup(dishId).value, dishIn))
  {
    var dish :- UpdateGuard(lookup, dishId);
    Ok(store(dish, dishIn))
  }

  /** A missing or inactive dish never reaches the store: any two stores give the same answer. */
  lemma RefusedUpdateIgnoresStore<U>(lookup: DishLookup, s1: (Dish, U) -> Dish, s2: (Dish, U) -> Dish,
                                     dishId: int, dishIn: U)
    requires lookup(dishId).None? || !lookup(dishId).value.isActive
    ensures Update(lookup, s1, dishId, dishIn) == Update(lookup, s2, dishId, dishIn)
    ensures Update(lookup, s1, dishId, dishIn).Fail?
  {
  }
}
