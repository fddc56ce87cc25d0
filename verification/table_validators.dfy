/** Table lookup within a cafe, with the id-format guard. */
module TableValidators {
  import opened Common
  import opened Entities
  import opened ApiExceptions
  import CrudTable

  const INVALID_TABLE_ID_MESSAGE := "ID стола должен быть положительным числом"
  const TABLE_NOT_FOUND_MESSAGE := "Стол не найден в данном кафе"

  /** `get_table_in_cafe_or_404`: a non-positive id is INVALID_ID_FORMAT 400 before any lookup;
      a missing table, or one of another cafe, is the same NOT_FOUND 404. */
  function GetTableInCafeOr404(tables: map<int, Table>, cafeId: int, tableId: int): (r: Outcome<Table>)
    ensures tableId <= 0 ==> r == Err("INVALID_ID_FORMAT", INVALID_TABLE_ID_MESSAGE, 400)
    ensures tableId > 0 && (tableId !in tables || tables[tableId].cafeId != cafeId) ==>
              r == Err("NOT_FOUND", TABLE_NOT_FOUND_MESSAGE, 404)
    ensures r.Ok? <==> tableId > 0 && tableId in tables && tables[tableId].cafeId == cafeId
    ensures r.Ok? ==> r.value == tables[tableId] && r.value.cafeId == cafeId
  {
    if tableId <= 0 then Err("INVALID_ID_FORMAT", INVALID_TABLE_ID_MESSAGE, 400)
    else
      var table := CrudTable.Get(tables, tableId);
      if table.None? || table.value.cafeId != cafeId then Err("NOT_FOUND", TABLE_NOT_FOUND_MESSAGE, 404)
      else Ok(table.value)
  }

  /** A table of another cafe cannot be told apart from a missing one. */
  lemma OtherCafeLooksMissing(tables: map<int, Table>, cafeId: int, tableId: int)
    requires tableId in tables && tables[tableId].cafeId != cafeId
    ensures GetTableInCafeOr404(tables, cafeId, tableId) == GetTableInCafeOr404(tables - {tableId}, cafeId, tableId)
  {
  }
}
