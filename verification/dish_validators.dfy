/** Dish guards: a unique name, every requested cafe stored, and the visibility of an inactive
    dish to a plain user. */
module DishValidators {
  import opened Common
  import opened Entities

  const DISH_HIDDEN_MESSAGE := "Это блюдо сейчас недоступно."

  function DuplicateNameMessage(name: string): string {
    "Блюдо '" + name + "' уже существует."
  }

  function MissingCafesMessage(missing: set<int>): string {
    "Кафе с id " + IntSetRepr(missing) + " не существуют."
  }

  /** `check_name_unique`: 400 when some stored dish has exactly this name. */
  function CheckNameUnique(dishes: map<int, Dish>, name: string): (r: Outcome<()>)
    ensures r.Ok? <==> forall d :: d in dishes.Values ==> d.name != name
    ensures r.Fail? ==> r == HttpFail(400, DuplicateNameMessage(name))
  {
    if exists d :: d in dishes.Values && d.name == name then HttpFail(400, DuplicateNameMessage(name))
    else Ok(())
  }

  /** The requested ids no stored cafe has: `set(cafe_ids) - found_ids`. */
  function MissingCafes(cafes: map<int, Cafe>, ids: seq<int>): (r: set<int>)
    ensures forall c :: c in r <==> c in ids && c !in cafes
  {
    ToSet(ids) - FoundCafes(cafes, ids)
  }

  /** `check_cafe_exists`: 400 naming the missing ids when there are any, otherwise the found
      cafes (each once, in id order). */
  function CheckCafeExists(cafes: map<int, Cafe>, ids: seq<int>): (r: Outcome<seq<int>>)
    ensures r.Ok? <==> forall i :: 0 <= i < |ids| ==> ids[i] in cafes
    ensures r.Fail? ==> r == HttpFail(400, MissingCafesMessage(MissingCafes(cafes, ids)))
    ensures r.Ok? ==> StrictlyAscending(r.value) && forall c :: c in r.value <==> c in ids
  {
    var missing := MissingCafes(cafes, ids);
    if missing != {} then
      HttpFail(400, MissingCafesMessage(missing))
    else
      assert forall i :: 0 <= i < |ids| ==> ids[i] in cafes by {
        forall i | 0 <= i < |ids| ensures ids[i] in cafes {
          assert ids[i] !in missing;
        }
      }
      Ok(CafesAmong(cafes, ids))
  }

  /** Unlike a count comparison, repeating an id that exists is no error here. */
  lemma RepeatedIdsAccepted(cafes: map<int, Cafe>, ids: seq<int>)
    requires CheckCafeExists(cafes, ids).Ok?
    ensures CheckCafeExists(cafes, ids + ids) == CheckCafeExists(cafes, ids)
  {
    assert ToSet(ids + ids) == ToSet(ids);
    assert FoundCafes(cafes, ids + ids) == FoundCafes(cafes, ids);
  }

  /** `check_dish_access`: an inactive dish is not found for role 0; any other caller, or an
      active dish, gets the dish back unchanged. */
  function CheckDishAccess(dish: Dish, user: User): (r: Outcome<Dish>)
    ensures r.Ok? <==> dish.isActive || user.role != ROLE_USER
    ensures r.Ok? ==> r.value == dish
    ensures r.Fail? ==> r == HttpFail(404, DISH_HIDDEN_MESSAGE)
  {
    if !dish.isActive && user.role == ROLE_USER then HttpFail(404, DISH_HIDDEN_MESSAGE)
    else Ok(dish)
  }

  /** Any role other than USER is given every dish, active or not, whatever that role is. */
  lemma StaffAlwaysSeesDish(dish: Dish, user: User, role: int)
    requires user.role != ROLE_USER && role != ROLE_USER
    ensures CheckDishAccess(dish, user) == CheckDishAccess(dish, user.(role := role)) == Ok(dish)
  {
  }
}
