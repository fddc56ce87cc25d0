/** Cafe lookup by id, with the id-format guard. */
module CafeValidators {
  import opened Common
  import opened Entities
  import opened ApiExceptions
  import CrudCafe

  const INVALID_ID_MESSAGE := "ID должен быть положительным числом"
  const CAFE_NOT_FOUND_MESSAGE := "Кафе не найдено"

  /** `check_cafe_permissions(cafe, user)`, which src/api/cafe_service.py imports from a module
      that does not define it; left abstract. */
  type CafePermissionCheck = (Cafe, User) -> Outcome<()>

  /** `get_cafe_or_404`: a non-positive id is INVALID_ID_FORMAT 400 even though the lookup has
      already run; a positive id with no cafe is NOT_FOUND 404; otherwise the cafe, active or not. */
  function GetCafeOr404(cafes: map<int, Cafe>, cafeId: int): (r: Outcome<Cafe>)
    ensures cafeId <= 0 ==> r == Err("INVALID_ID_FORMAT", INVALID_ID_MESSAGE, 400)
    ensures cafeId > 0 && cafeId !in cafes ==> r == Err("NOT_FOUND", CAFE_NOT_FOUND_MESSAGE, 404)
    ensures r.Ok? <==> cafeId > 0 && cafeId in cafes
    ensures r.Ok? ==> r.value == cafes[cafeId]
  {
    var cafe := CrudCafe.Get(cafes, cafeId);
    if cafeId <= 0 then Err("INVALID_ID_FORMAT", INVALID_ID_MESSAGE, 400)
    else if cafe.None? then Err("NOT_FOUND", CAFE_NOT_FOUND_MESSAGE, 404)
    else Ok(cafe.value)
  }

  /** The id-format guard wins over not-found, whatever is stored. */
  lemma IdFormatBeforeNotFound(cafes: map<int, Cafe>, cafeId: int)
    requires cafeId <= 0
    ensures GetCafeOr404(cafes, cafeId) == GetCafeOr404(map[], cafeId)
    ensures FailsWith(GetCafeOr404(cafes, cafeId), 400)
  {
  }
}
