/** Table storage: lookup by id, the attribute-filtered listing, creation under a cafe taken
    from the path, and the partial update that assigns the sent fields one by one. */
module CrudTable {
  import opened Common
  import opened Entities

  /** `TableCreate` after validation. */
  datatype TableCreate = TableCreate(description: string, seatNumber: int)

  /** `TableUpdate` after validation; None is a field that was not sent. */
  datatype TableUpdate = TableUpdate(description: Option<string>, seatNumber: Option<int>, isActive: Option<bool>)

  /** `CRUDTable.get`: the table with that id, or None. */
  function Get(tables: map<int, Table>, tableId: int): (r: Option<Table>)
    ensures r.Some? <==> tableId in tables
    ensures r.Some? ==> r.value == tables[tableId]
  {
    if tableId in tables then Some(tables[tableId]) else None
  }

  /** The value of a table column by attribute name; None for a name the model lacks. */
  function TableAttr(t: Table, name: string): (r: Option<Value>)
    ensures r.None? <==> name !in {"id", "cafe_id", "description", "seat_number", "is_active"}
    ensures name == "cafe_id" ==> r == Some(VInt(t.cafeId))
    ensures name == "is_active" ==> r == Some(VBool(t.isActive))
  {
    if name == "id" then Some(VInt(t.id))
    else if name == "cafe_id" then Some(VInt(t.cafeId))
    else if name == "description" then Some(VStr(t.description))
    else if name == "seat_number" then Some(VInt(t.seatNumber))
    else if name == "is_active" then Some(VBool(t.isActive))
    else None
  }

  /** Every filter key that names an attribute must equal it; other keys are ignored. */
  predicate MatchesFilters(t: Table, filters: map<string, Value>) {
    forall key :: key in filters && TableAttr(t, key).Some? ==> TableAttr(t, key).value == filters[key]
  }

  /** `CRUDTable.get_multi(**filters)`. */
  function GetMulti(tables: map<int, Table>, filters: map<string, Value>): (r: seq<Table>)
    ensures forall t :: t in r <==> t in tables.Values && MatchesFilters(t, filters)
  {
    Filter(Rows(tables), (t: Table) => MatchesFilters(t, filters))
  }

  /** Filtering by `cafe_id` alone keeps exactly the tables of that cafe; unknown keys change nothing. */
  lemma CafeFilter(tables: map<int, Table>, cafeId: int, unknown: string, v: Value)
    requires TableAttr(Table(0, 0, "", 0, false), unknown).None?
    ensures forall t :: t in GetMulti(tables, map["cafe_id" := VInt(cafeId)]) <==> t in tables.Values && t.cafeId == cafeId
    ensures forall t :: t in GetMulti(tables, map["cafe_id" := VInt(cafeId), unknown := v]) <==>
                        t in GetMulti(tables, map["cafe_id" := VInt(cafeId)])
  {
    assert unknown != "cafe_id";
    var one := map["cafe_id" := VInt(cafeId)];
    var two := map["cafe_id" := VInt(cafeId), unknown := v];
    forall t: Table ensures MatchesFilters(t, one) <==> t.cafeId == cafeId {
      assert TableAttr(t, "cafe_id") == Some(VInt(t.cafeId));
    }
    forall t: Table ensures MatchesFilters(t, two) <==> MatchesFilters(t, one) {
      if MatchesFilters(t, one) {
        forall key | key in two && TableAttr(t, key).Some? ensures TableAttr(t, key).value == two[key] {
          assert key == "cafe_id";
        }
      }
      if MatchesFilters(t, two) {
        assert two["cafe_id"] == VInt(cafeId);
        assert TableAttr(t, "cafe_id").Some?;
      }
    }
  }

  /** The table `CRUDTable.create` inserts: the payload, under the given cafe, active. */
  function NewTable(id: int, tableIn: TableCreate, cafeId: int): (r: Table)
    ensures r.id == id && r.cafeId == cafeId && r.isActive
    ensures r.description == tableIn.description && r.seatNumber == tableIn.seatNumber
  {
    Table(id, cafeId, tableIn.description, tableIn.seatNumber, true)
  }

  /** `CRUDTable.create(obj_in, cafe_id=...)`: the cafe comes from the argument. */
  method Create(db: Db, tableIn: TableCreate, cafeId: int) returns (r: Table)
    requires db.Valid()
    modifies db`tables, db`nextId
    ensures db.Valid()
    ensures r.id !in old(db.tables) && r == NewTable(r.id, tableIn, cafeId)
    ensures db.tables == old(db.tables)[r.id := r]
  {
    var id := db.NewId();
    r := NewTable(id, tableIn, cafeId);
    db.tables := db.tables[id := r];
  }

  // ------------------------------------------------------------- update

  datatype TableField = DescriptionField | SeatNumberField | IsActiveField

  const TABLE_FIELDS := [DescriptionField, SeatNumberField, IsActiveField]

  /** `getattr(table, field)`. */
  function GetTableField(t: Table, f: TableField): Value {
    match f
    case DescriptionField => VStr(t.description)
    case SeatNumberField => VInt(t.seatNumber)
    case IsActiveField => VBool(t.isActive)
  }

  predicate FitsTable(f: TableField, v: Value) {
    match f
    case DescriptionField => v.VStr?
    case SeatNumberField => v.VInt?
    case IsActiveField => v.VBool?
  }

  /** The value `model_dump(exclude_unset=True)` holds for a field; None when not sent. */
  function SentValue(tableIn: TableUpdate, f: TableField): (r: Option<Value>)
    ensures r.Some? ==> FitsTable(f, r.value)
  {
    match f
    case DescriptionField => if tableIn.description.Some? then Some(VStr(tableIn.description.value)) else None
    case SeatNumberField => if tableIn.seatNumber.Some? then Some(VInt(tableIn.seatNumber.value)) else None
    case IsActiveField => if tableIn.isActive.Some? then Some(VBool(tableIn.isActive.value)) else None
  }

  /** `setattr(table, field, value)`: that attribute changes, nothing else does. */
  function SetTableField(t: Table, f: TableField, v: Value): (r: Table)
    requires FitsTable(f, v)
    ensures GetTableField(r, f) == v
    ensures forall g :: g != f ==> GetTableField(r, g) == GetTableField(t, g)
    ensures r.id == t.id && r.cafeId == t.cafeId
  {
    match f
    case DescriptionField => t.(description := v.s)
    case SeatNumberField => t.(seatNumber := v.i)
    case IsActiveField => t.(isActive := v.b)
  }

  /** The meaning of an update: a sent field takes the payload's value, the rest is kept;
      id and cafe never change. */
  function UpdatedTable(t: Table, tableIn: TableUpdate): (r: Table)
    ensures r.id == t.id && r.cafeId == t.cafeId
    ensures r.description == (if tableIn.description.Some? then tableIn.description.value else t.description)
    ensures r.seatNumber == (if tableIn.seatNumber.Some? then tableIn.seatNumber.value else t.seatNumber)
    ensures r.isActive == (if tableIn.isActive.Some? then tableIn.isActive.value else t.isActive)
    ensures forall f :: GetTableField(r, f) == (if SentValue(tableIn, f).Some? then SentValue(tableIn, f).value
                                               else GetTableField(t, f))
  {
    Table(t.id, t.cafeId,
          if tableIn.description.Some? then tableIn.description.value else t.description,
          if tableIn.seatNumber.Some? then tableIn.seatNumber.value else t.seatNumber,
          if tableIn.isActive.Some? then tableIn.isActive.value else t.isActive)
  }

  /** An update that sends nothing leaves the table as it was. */
  lemma EmptyTableUpdateIsIdentity(t: Table)
    ensures UpdatedTable(t, TableUpdate(None, None, None)) == t
  {
  }

  lemma TableExtensionality(a: Table, b: Table)
    requires a.id == b.id && a.cafeId == b.cafeId
    requires forall f :: GetTableField(a, f) == GetTableField(b, f)
    ensures a == b
  {
    assert GetTableField(a, DescriptionField) == GetTableField(b, DescriptionField);
    assert GetTableField(a, SeatNumberField) == GetTableField(b, SeatNumberField);
    assert GetTableField(a, IsActiveField) == GetTableField(b, IsActiveField);
  }

  /** `CRUDTable.update` on the stored table `tableId`: the `setattr` loop over the sent fields. */
  method Update(db: Db, tableId: int, tableIn: TableUpdate) returns (r: Table)
    requires db.Valid() && tableId in db.tables
    modifies db`tables
    ensures db.Valid()
    ensures r == UpdatedTable(old(db.tables)[tableId], tableIn)
    ensures db.tables == old(db.tables)[tableId := r]
  {
    var table := db.tables[tableId];
    r := table;
    var i := 0;
    while i < |TABLE_FIELDS|
      invariant 0 <= i <= |TABLE_FIELDS|
      invariant r.id == table.id && r.cafeId == table.cafeId
      invariant forall j :: 0 <= j < |TABLE_FIELDS| ==>
                  GetTableField(r, TABLE_FIELDS[j]) ==
                  (if j < i && SentValue(tableIn, TABLE_FIELDS[j]).Some? then SentValue(tableIn, TABLE_FIELDS[j]).value
                   else GetTableField(table, TABLE_FIELDS[j]))
    {
      var f := TABLE_FIELDS[i];
      var sent := SentValue(tableIn, f);
      if sent.Some? {
        r := SetTableField(r, f, sent.value);
      }
      i := i + 1;
    }
    forall f ensures GetTableField(r, f) == GetTableField(UpdatedTable(table, tableIn), f) {
      assert f == TABLE_FIELDS[0] || f == TABLE_FIELDS[1] || f == TABLE_FIELDS[2];
    }
    TableExtensionality(r, UpdatedTable(table, tableIn));
    db.tables := db.tables[tableId := r];
  }
}
