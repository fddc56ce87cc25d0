/** The table service: listing under an existing cafe with the visibility rule, reading one
    table, creating under the path cafe, and updating only a table of the path cafe. */
module TableService {
  import opened Common
  import opened Entities
  import opened ApiExceptions
  import opened CafeValidators
  import opened TableValidators
  import CrudTable

  /** `get_all_tables`: the cafe must exist; then its tables, active ones only unless an ADMIN
      or MANAGER asked for all. */
  function GetAllTables(cafes: map<int, Cafe>, tables: map<int, Table>, cafeId: int, currentUser: User,
                        showAll: bool): (r: Outcome<seq<Table>>)
    ensures GetCafeOr404(cafes, cafeId).Fail? ==> r == Fail(GetCafeOr404(cafes, cafeId).exc)
    ensures r.Ok? <==> GetCafeOr404(cafes, cafeId).Ok?
    ensures r.Ok? ==> forall t :: t in r.value <==>
              t in tables.Values && t.cafeId == cafeId && (t.isActive || (IsStaffRole(currentUser.role) && showAll))
  {
    var _ :- GetCafeOr404(cafes, cafeId);
    var rows := CrudTable.GetMulti(tables, map["cafe_id" := VInt(cafeId)]);
    CrudTable.CafeFilter(tables, cafeId, "", VNone);
    var staff := IsStaffRole(currentUser.role);
    if !(staff && showAll) then Ok(Filter(rows, (t: Table) => t.isActive)) else Ok(rows)
  }

  /** `get_table`: the in-cafe lookup, then an inactive table is NOT_FOUND for a plain user. */
  function GetTable(tables: map<int, Table>, cafeId: int, tableId: int, currentUser: User): (r: Outcome<Table>)
    ensures GetTableInCafeOr404(tables, cafeId, tableId).Fail? ==> r == GetTableInCafeOr404(tables, cafeId, tableId)
    ensures r.Ok? <==> tableId > 0 && tableId in tables && tables[tableId].cafeId == cafeId
                       && (tables[tableId].isActive || IsStaffRole(currentUser.role))
    ensures r.Ok? ==> r.value == tables[tableId]
    ensures (tableId > 0 && tableId in tables && tables[tableId].cafeId == cafeId && !tables[tableId].isActive
             && !IsStaffRole(currentUser.role)) ==> r == Err("NOT_FOUND", TABLE_NOT_FOUND_MESSAGE, 404)
  {
    var table :- GetTableInCafeOr404(tables, cafeId, tableId);
    if !table.isActive && !IsStaffRole(currentUser.role) then Err("NOT_FOUND", TABLE_NOT_FOUND_MESSAGE, 404)
    else Ok(table)
  }

  /** A plain user sees only active tables; staff who ask for all see every table of the cafe. */
  lemma TableVisibility(cafes: map<int, Cafe>, tables: map<int, Table>, cafeId: int, user: User, staff: User)
    requires GetCafeOr404(cafes, cafeId).Ok?
    requires !IsStaffRole(user.role) && IsStaffRole(staff.role)
    ensures forall t :: t in GetAllTables(cafes, tables, cafeId, user, true).value ==> t.isActive
    ensures forall t :: t in GetAllTables(cafes, tables, cafeId, user, true).value ==>
              t in GetAllTables(cafes, tables, cafeId, staff, true).value
    ensures forall t :: t in tables.Values && t.cafeId == cafeId ==> t in GetAllTables(cafes, tables, cafeId, staff, true).value
  {
  }

  /** `create_table`: the cafe must exist; the new table belongs to it. */
  method CreateTable(db: Db, cafeId: int, tableIn: CrudTable.TableCreate) returns (r: Outcome<Table>)
    requires db.Valid()
    modifies db`tables, db`nextId
    ensures db.Valid()
    ensures GetCafeOr404(old(db.cafes), cafeId).Fail? ==>
              r == Fail(GetCafeOr404(old(db.cafes), cafeId).exc) && db.tables == old(db.tables)
    ensures GetCafeOr404(old(db.cafes), cafeId).Ok? ==>
              r.Ok? && r.value.id !in old(db.tables) && r.value == CrudTable.NewTable(r.value.id, tableIn, cafeId)
              && db.tables == old(db.tables)[r.value.id := r.value]
  {
    var cafe := GetCafeOr404(db.cafes, cafeId);
    if cafe.Fail? {
      return Fail(cafe.exc);
    }
    var table := CrudTable.Create(db, tableIn, cafeId);
    r := Ok(table);
  }

  /** `update_table`: only a table of the path cafe is updated; otherwise nothing is written. */
  method UpdateTable(db: Db, cafeId: int, tableId: int, tableIn: CrudTable.TableUpdate) returns (r: Outcome<Table>)
    requires db.Valid()
    modifies db`tables
    ensures db.Valid()
    ensures var found := GetTableInCafeOr404(old(db.tables), cafeId, tableId);
            (found.Fail? ==> r == Fail(found.exc) && db.tables == old(db.tables))
            && (found.Ok? ==> r == Ok(CrudTable.UpdatedTable(found.value, tableIn))
                              && r.value.cafeId == cafeId && r.value.id == tableId
                              && db.tables == old(db.tables)[tableId := r.value])
  {
    var found := GetTableInCafeOr404(db.tables, cafeId, tableId);
    if found.Fail? {
      return Fail(found.exc);
    }
    var table := CrudTable.Update(db, tableId, tableIn);
    r := Ok(table);
  }
}
