/** The older dish store: listing by activity and by the dish's own `cafe_id`, creation with a
    given cafe list, and the partial update that reads `cafes_id` from the sent fields and then
    assigns every other sent field the dish has an attribute for. */
module CrudDishes {
  import opened Common
  import opened Entities
  import DishValidators

  /** `get_dishes`: a truthy `only_active` keeps active dishes; a given `cafe_id` keeps the
      dishes whose own `cafe_id` equals it. */
  function GetDishes(dishes: map<int, Dish>, cafeId: Option<int>, onlyActive: Option<bool>): (r: seq<Dish>)
    ensures forall d :: d in r <==>
              d in dishes.Values && (onlyActive == Some(true) ==> d.isActive)
              && (cafeId.Some? ==> d.cafeId == Some(cafeId.value))
  {
    Filter(Rows(dishes), (d: Dish) => (onlyActive == Some(true) ==> d.isActive)
                                      && (cafeId.Some? ==> d.cafeId == Some(cafeId.value)))
  }

  /** `only_active=False` and `only_active=None` list the same dishes, and the active listing
      is part of them. */
  lemma ActiveListingIsSubset(dishes: map<int, Dish>, cafeId: Option<int>)
    ensures forall d :: d in GetDishes(dishes, cafeId, Some(false)) <==> d in GetDishes(dishes, cafeId, None)
    ensures forall d :: d in GetDishes(dishes, cafeId, Some(true)) ==> d in GetDishes(dishes, cafeId, None)
    ensures forall d :: d in GetDishes(dishes, cafeId, Some(true)) ==> d.isActive
  {
  }

  /** The create payload: the scalar fields plus `cafes_id`, which `create_dish` leaves out of
      the dump in favour of the cafe list it is given. */
  datatype DishCreateIn = DishCreateIn(name: string, description: Option<string>, price: int,
                                       photoId: Option<string>, cafesId: seq<int>)

  /** The dish `create_dish` adds: the payload's scalar fields, the given cafes, the column
      defaults (active, available) and `now` as its creation time. */
  function NewDish(id: int, dishIn: DishCreateIn, cafes: seq<int>, now: int): (r: Dish)
    ensures r.id == id && r.name == dishIn.name && r.description == dishIn.description
    ensures r.price == dishIn.price && r.photoId == dishIn.photoId && r.createdAt == now
    ensures r.isActive && r.isAvailable && r.cafes == cafes && r.cafeId.None?
  {
    Dish(id, dishIn.name, dishIn.description, dishIn.price, dishIn.photoId, true, true, now, cafes, None)
  }

  /** The payload's own `cafes_id` never reaches the dish. */
  lemma CafesIdIgnored(id: int, dishIn: DishCreateIn, ids: seq<int>, cafes: seq<int>, now: int)
    ensures NewDish(id, dishIn.(cafesId := ids), cafes, now) == NewDish(id, dishIn, cafes, now)
  {
  }

  /** `CRUDDish.create_dish`. */
  method CreateDish(db: Db, dishIn: DishCreateIn, cafes: seq<int>, now: int) returns (r: Dish)
    requires db.Valid()
    modifies db`dishes, db`nextId
    ensures db.Valid()
    ensures r.id !in old(db.dishes) && r == NewDish(r.id, dishIn, cafes, now)
    ensures db.dishes == old(db.dishes)[r.id := r]
  {
    var id := db.NewId();
    r := NewDish(id, dishIn, cafes, now);
    db.dishes := db.dishes[id := r];
  }

  // ------------------------------------------------------------- update

  /** The dish attributes an update can assign by name. */
  datatype DishField = NameField | DescriptionField | PriceField | AvailableField | PhotoField
                     | ActiveField | CafeIdField

  /** `hasattr(dish, name)` for the column attributes: the field a name denotes, or None.
      Both spellings in use for the photo and the activity flag name the same column. */
  function DishAttr(name: string): (r: Option<DishField>)
    ensures r.None? <==> name !in {"name", "description", "price", "is_available", "media_id", "photo_id",
                                    "active", "is_active", "cafe_id"}
  {
    if name == "name" then Some(NameField)
    else if name == "description" then Some(DescriptionField)
    else if name == "price" then Some(PriceField)
    else if name == "is_available" then Some(AvailableField)
    else if name == "media_id" || name == "photo_id" then Some(PhotoField)
    else if name == "active" || name == "is_active" then Some(ActiveField)
    else if name == "cafe_id" then Some(CafeIdField)
    else None
  }

  function OptText(s: Option<string>): Value {
    if s.Some? then VStr(s.value) else VNone
  }

  function OptInt(n: Option<int>): Value {
    if n.Some? then VInt(n.value) else VNone
  }

  /** `getattr(dish, field)`. */
  function GetDishField(d: Dish, f: DishField): Value {
    match f
    case NameField => VStr(d.name)
    case DescriptionField => OptText(d.description)
    case PriceField => VInt(d.price)
    case AvailableField => VBool(d.isAvailable)
    case PhotoField => OptText(d.photoId)
    case ActiveField => VBool(d.isActive)
    case CafeIdField => OptInt(d.cafeId)
  }

  /** The values a column holds; the nullable ones also hold None. */
  predicate FitsDish(f: DishField, v: Value) {
    match f
    case NameField => v.VStr?
    case DescriptionField | PhotoField => v.VStr? || v.VNone?
    case PriceField => v.VInt?
    case AvailableField | ActiveField => v.VBool?
    case CafeIdField => v.VInt? || v.VNone?
  }

  /** `setattr(dish, field, value)`: that attribute changes, nothing else does. */
  function SetDishField(d: Dish, f: DishField, v: Value): (r: Dish)
    requires FitsDish(f, v)
    ensures GetDishField(r, f) == v
    ensures forall g :: g != f ==> GetDishField(r, g) == GetDishField(d, g)
    ensures r.id == d.id && r.createdAt == d.createdAt && r.cafes == d.cafes
  {
    match f
    case NameField => d.(name := v.s)
    case DescriptionField => d.(description := if v.VStr? then Some(v.s) else None)
    case PriceField => d.(price := v.i)
    case AvailableField => d.(isAvailable := v.b)
    case PhotoField => d.(photoId := if v.VStr? then Some(v.s) else None)
    case ActiveField => d.(isActive := v.b)
    case CafeIdField => d.(cafeId := if v.VInt? then Some(v.i) else None)
  }

  /** The sent fields other than `cafes_id`, in the order `model_dump` lists them; each value has
      the type of the column its name denotes, as the payload schema guarantees. */
  predicate ItemsFit(items: seq<(string, Value)>) {
    forall i :: 0 <= i < |items| && DishAttr(items[i].0).Some? ==> FitsDish(DishAttr(items[i].0).value, items[i].1)
  }

  lemma ItemsFitPrefix(items: seq<(string, Value)>, n: nat)
    requires ItemsFit(items) && n <= |items|
    ensures ItemsFit(items[..n])
  {
    assert forall i :: 0 <= i < n ==> items[..n][i] == items[i];
  }

  /** The value the last sent item naming field `f` carries, or None when no item names it. */
  function SentFor(items: seq<(string, Value)>, f: DishField): (r: Option<Value>)
    requires ItemsFit(items)
    ensures r.Some? ==> FitsDish(f, r.value)
    ensures r.None? <==> forall i :: 0 <= i < |items| ==> DishAttr(items[i].0) != Some(f)
  {
    if items == [] then None
    else
      var last := items[|items| - 1];
      ItemsFitPrefix(items, |items| - 1);
      if DishAttr(last.0) == Some(f) then Some(last.1)
      else
        var rest := SentFor(items[..|items| - 1], f);
        assert forall i :: 0 <= i < |items| - 1 ==> items[..|items| - 1][i] == items[i];
        rest
  }

  /** The meaning of the assignment loop: the items are applied in order, each one naming an
      attribute sets it. So each field the items name takes the last such value; every other
      field, the id, the timestamp and the cafes stay. */
  function Assigned(d: Dish, items: seq<(string, Value)>): (r: Dish)
    requires ItemsFit(items)
    ensures r.id == d.id && r.createdAt == d.createdAt && r.cafes == d.cafes
    ensures forall f :: GetDishField(r, f) == (if SentFor(items, f).Some? then SentFor(items, f).value
                                              else GetDishField(d, f))
  {
    if items == [] then d
    else
      ItemsFitPrefix(items, |items| - 1);
      var before := Assigned(d, items[..|items| - 1]);
      var (name, value) := items[|items| - 1];
      if DishAttr(name).Some? then SetDishField(before, DishAttr(name).value, value) else before
  }

  lemma DishExtensionality(a: Dish, b: Dish)
    requires a.id == b.id && a.createdAt == b.createdAt && a.cafes == b.cafes
    requires forall f :: GetDishField(a, f) == GetDishField(b, f)
    ensures a == b
  {
    assert GetDishField(a, NameField) == GetDishField(b, NameField);
    assert GetDishField(a, DescriptionField) == GetDishField(b, DescriptionField);
    assert GetDishField(a, PriceField) == GetDishField(b, PriceField);
    assert GetDishField(a, AvailableField) == GetDishField(b, AvailableField);
    assert GetDishField(a, PhotoField) == GetDishField(b, PhotoField);
    assert GetDishField(a, ActiveField) == GetDishField(b, ActiveField);
    assert GetDishField(a, CafeIdField) == GetDishField(b, CafeIdField);
  }

  /** Sent names that are no attribute of the dish (a misspelt field, `cafes_id` itself) change
      nothing, and sending nothing changes nothing. */
  lemma UnknownNamesIgnored(d: Dish, items: seq<(string, Value)>)
    requires forall i :: 0 <= i < |items| ==> DishAttr(items[i].0).None?
    ensures ItemsFit(items) && Assigned(d, items) == d
  {
    var r := Assigned(d, items);
    forall f ensures GetDishField(r, f) == GetDishField(d, f) {
      assert SentFor(items, f).None?;
    }
    DishExtensionality(r, d);
  }

  /** `update_data['cafes_id']` as the dump holds it: absent, or sent (possibly null). */
  datatype DishUpdateIn = DishUpdateIn(cafesId: Patch<Option<seq<int>>>, items: seq<(string, Value)>)

  /** `update_data['cafes_id']` is truthy: sent, not null and not empty. */
  predicate ReplacesCafes(dishIn: DishUpdateIn) {
    dishIn.cafesId.Set? && dishIn.cafesId.value.Some? && dishIn.cafesId.value.value != []
  }

  /** The cafes `update_dish` leaves on dish `d`, in the order of its first statements: reading
      `update_data['cafes_id']` raises KeyError when it was not sent; a truthy value goes through
      `check_cafe_exists` and replaces the cafes; a falsy one keeps them. */
  function UpdatedCafes(cafes: map<int, Cafe>, d: Dish, dishIn: DishUpdateIn): (r: Outcome<seq<int>>)
    ensures dishIn.cafesId.Unset? ==> r == Fail(KeyErr("cafes_id"))
    ensures ReplacesCafes(dishIn) ==> r == DishValidators.CheckCafeExists(cafes, dishIn.cafesId.value.value)
    ensures dishIn.cafesId.Set? && !ReplacesCafes(dishIn) ==> r == Ok(d.cafes)
    ensures r.Ok? <==> (dishIn.cafesId.Set?
                        && (ReplacesCafes(dishIn) ==>
                              forall c :: c in dishIn.cafesId.value.value ==> c in cafes))
  {
    if dishIn.cafesId.Unset? then Fail(KeyErr("cafes_id"))
    else if ReplacesCafes(dishIn) then DishValidators.CheckCafeExists(cafes, dishIn.cafesId.value.value)
    else Ok(d.cafes)
  }

  /** `CRUDDish.update_dish` on the stored dish `dishId`: the cafes first, then the other sent
      fields assigned one by one; nothing is written when the cafes step fails. */
  method UpdateDish(db: Db, dishId: int, dishIn: DishUpdateIn) returns (r: Outcome<Dish>)
    requires db.Valid() && dishId in db.dishes
    requires ItemsFit(dishIn.items)
    modifies db`dishes
    ensures db.Valid()
    ensures var cafes := UpdatedCafes(old(db.cafes), old(db.dishes)[dishId], dishIn);
            (cafes.Fail? ==> r == Fail(cafes.exc) && db.dishes == old(db.dishes))
            && (cafes.Ok? ==>
                  r == Ok(Assigned(old(db.dishes)[dishId].(cafes := cafes.value), dishIn.items))
                  && db.dishes == old(db.dishes)[dishId := r.value])
  {
    var cafes := UpdatedCafes(db.cafes, db.dishes[dishId], dishIn);
    if cafes.Fail? {
      return Fail(cafes.exc);
    }
    var dish := db.dishes[dishId].(cafes := cafes.value);
    var items := dishIn.items;
    var d := dish;
    var i := 0;
    while i < |items|
      invariant 0 <= i <= |items|
      invariant ItemsFit(items[..i])
      invariant d == Assigned(dish, items[..i])
      invariant db.dishes == old(db.dishes)
    {
      var (name, value) := items[i];
      assert items[..i + 1][..i] == items[..i];
      ItemsFitPrefix(items, i + 1);
      var attr := DishAttr(name);
      if attr.Some? {
        d := SetDishField(d, attr.value, value);
      }
      i := i + 1;
    }
    assert items[..i] == items;
    db.dishes := db.dishes[dishId := d];
    r := Ok(d);
  }
}
