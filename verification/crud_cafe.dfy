/** Cafe storage: lookup, the unfiltered listing, creation with the managers link, and the
    partial update that assigns simple fields one by one and then replaces the managers. */
module CrudCafe {
  import opened Common
  import opened Entities
  import opened CafeSchemas

  const MANAGERS_MISSING_MESSAGE := "Один или несколько ID менеджеров не найдены"

  /** `CRUDCafe.get`: the cafe with that id, active or not. */
  function Get(cafes: map<int, Cafe>, cafeId: int): (r: Option<Cafe>)
    ensures r.Some? <==> cafeId in cafes
    ensures r.Some? ==> r.value == cafes[cafeId]
  {
    if cafeId in cafes then Some(cafes[cafeId]) else None
  }

  /** `CRUDCafe.get_multi`: every cafe, active or not; any filter is ignored. */
  function GetMulti(cafes: map<int, Cafe>): (r: seq<Cafe>)
    ensures |r| == |cafes|
    ensures forall c :: c in r <==> c in cafes.Values
  {
    Rows(cafes)
  }

  /** The users whose id is among the requested manager ids (`User.id.in_(ids)`). */
  function ResolvedManagers(users: map<int, User>, ids: set<int>): (r: set<int>)
    ensures r == ids * users.Keys
  {
    ids * users.Keys
  }

  /** The query finds as many users as ids were asked for exactly when every id is a user. */
  lemma ResolvedCountIffAllExist(users: map<int, User>, ids: set<int>)
    ensures |ResolvedManagers(users, ids)| == |ids| <==> ids <= users.Keys
  {
    var found := ResolvedManagers(users, ids);
    if ids <= users.Keys {
      assert found == ids;
    }
    if !(ids <= users.Keys) {
      if forall x :: x in ids ==> x in users.Keys {
        assert false;
      }
      var m :| m in ids && m !in users.Keys;
      assert found <= ids - {m};
      SubsetCard(found, ids - {m});
      assert |found| < |ids|;
    }
  }

  /** The cafe `CRUDCafe.create` inserts: the payload without `managers_id`, active, linked to the
      resolved managers. */
  function NewCafe(id: int, cafeIn: CafeCreate, managers: set<int>): (r: Cafe)
    ensures r.id == id && r.isActive && r.managers == managers
    ensures r.name == cafeIn.name && r.address == cafeIn.address && r.phone == cafeIn.phone
    ensures r.description == cafeIn.description && r.photoId == cafeIn.photoId
  {
    Cafe(id, cafeIn.name, cafeIn.address, cafeIn.phone, cafeIn.description, cafeIn.photoId, true, managers)
  }

  /** Whether a `managers_id` value is truthy: present and non-empty. */
  predicate HasManagers(ids: Option<set<int>>) {
    ids.Some? && ids.value != {}
  }

  /** `CRUDCafe.create`: a truthy `managers_id` must resolve completely (ValueError otherwise,
      and nothing is added); the new cafe is linked to exactly the resolved users. */
  method Create(db: Db, cafeIn: CafeCreate) returns (r: Outcome<Cafe>)
    requires db.Valid()
    modifies db`cafes, db`nextId
    ensures db.Valid()
    ensures HasManagers(cafeIn.managersId) && !(cafeIn.managersId.value <= old(db.users).Keys) ==>
              r == Fail(ValueErr(MANAGERS_MISSING_MESSAGE)) && db.cafes == old(db.cafes)
    ensures !(HasManagers(cafeIn.managersId) && !(cafeIn.managersId.value <= old(db.users).Keys)) ==>
              r.Ok? && r.value.id !in old(db.cafes)
              && r.value == NewCafe(r.value.id, cafeIn, if HasManagers(cafeIn.managersId) then cafeIn.managersId.value else {})
              && db.cafes == old(db.cafes)[r.value.id := r.value]
  {
    var managers: set<int> := {};
    if HasManagers(cafeIn.managersId) {
      var ids := cafeIn.managersId.value;
      var found := ResolvedManagers(db.users, ids);
      ResolvedCountIffAllExist(db.users, ids);
      if |found| != |ids| {
        return Fail(ValueErr(MANAGERS_MISSING_MESSAGE));
      }
      managers := found;
    }
    var id := db.NewId();
    var cafe := NewCafe(id, cafeIn, managers);
    db.cafes := db.cafes[id := cafe];
    r := Ok(cafe);
  }

  // ------------------------------------------------------------- update

  /** The simple (non-managers) cafe attributes an update may assign, in schema order. */
  datatype CafeField = NameField | AddressField | PhoneField | DescriptionField | IsActiveField | PhotoIdField

  const SIMPLE_FIELDS := [NameField, AddressField, PhoneField, DescriptionField, IsActiveField, PhotoIdField]

  datatype CafeValue = CText(text: string) | COptText(opt: Option<string>) | CFlag(flag: bool)

  /** `getattr(cafe, field)`. */
  function GetCafeField(c: Cafe, f: CafeField): CafeValue {
    match f
    case NameField => CText(c.name)
    case AddressField => CText(c.address)
    case PhoneField => CText(c.phone)
    case DescriptionField => COptText(c.description)
    case IsActiveField => CFlag(c.isActive)
    case PhotoIdField => COptText(c.photoId)
  }

  /** The value `simple_data` holds for a field; None when the field was not sent. */
  function SentValue(cafeIn: CafeUpdate, f: CafeField): (r: Option<CafeValue>)
    ensures r.Some? ==> FitsCafe(f, r.value)
  {
    match f
    case NameField => if cafeIn.name.Some? then Some(CText(cafeIn.name.value)) else None
    case AddressField => if cafeIn.address.Some? then Some(CText(cafeIn.address.value)) else None
    case PhoneField => if cafeIn.phone.Some? then Some(CText(cafeIn.phone.value)) else None
    case DescriptionField => if cafeIn.description.Set? then Some(COptText(cafeIn.description.value)) else None
    case IsActiveField => if cafeIn.isActive.Some? then Some(CFlag(cafeIn.isActive.value)) else None
    case PhotoIdField => if cafeIn.photoId.Set? then Some(COptText(cafeIn.photoId.value)) else None
  }

  predicate FitsCafe(f: CafeField, v: CafeValue) {
    match f
    case NameField => v.CText?
    case AddressField => v.CText?
    case PhoneField => v.CText?
    case DescriptionField => v.COptText?
    case IsActiveField => v.CFlag?
    case PhotoIdField => v.COptText?
  }

  /** `setattr(cafe, field, value)`: that attribute changes, nothing else does. */
  function SetCafeField(c: Cafe, f: CafeField, v: CafeValue): (r: Cafe)
    requires FitsCafe(f, v)
    ensures GetCafeField(r, f) == v
    ensures forall g :: g != f ==> GetCafeField(r, g) == GetCafeField(c, g)
    ensures r.id == c.id && r.managers == c.managers
  {
    match f
    case NameField => c.(name := v.text)
    case AddressField => c.(address := v.text)
    case PhoneField => c.(phone := v.text)
    case DescriptionField => c.(description := v.opt)
    case IsActiveField => c.(isActive := v.flag)
    case PhotoIdField => c.(photoId := v.opt)
  }

  /** The field-by-field meaning of the simple part of an update: a sent field takes the
      payload's value, an absent one keeps the cafe's. */
  function UpdatedFields(c: Cafe, cafeIn: CafeUpdate): (r: Cafe)
    ensures r.id == c.id && r.managers == c.managers
    ensures r.name == (if cafeIn.name.Some? then cafeIn.name.value else c.name)
    ensures r.address == (if cafeIn.address.Some? then cafeIn.address.value else c.address)
    ensures r.phone == (if cafeIn.phone.Some? then cafeIn.phone.value else c.phone)
    ensures r.description == cafeIn.description.Or(c.description)
    ensures r.isActive == (if cafeIn.isActive.Some? then cafeIn.isActive.value else c.isActive)
    ensures r.photoId == cafeIn.photoId.Or(c.photoId)
    ensures forall f :: GetCafeField(r, f) == (if SentValue(cafeIn, f).Some? then SentValue(cafeIn, f).value
                                              else GetCafeField(c, f))
  {
    Cafe(c.id,
         if cafeIn.name.Some? then cafeIn.name.value else c.name,
         if cafeIn.address.Some? then cafeIn.address.value else c.address,
         if cafeIn.phone.Some? then cafeIn.phone.value else c.phone,
         cafeIn.description.Or(c.description),
         cafeIn.photoId.Or(c.photoId),
         if cafeIn.isActive.Some? then cafeIn.isActive.value else c.isActive,
         c.managers)
  }

  /** Two cafes that agree on id, managers and every simple field are the same cafe. */
  lemma CafeExtensionality(a: Cafe, b: Cafe)
    requires a.id == b.id && a.managers == b.managers
    requires forall f :: GetCafeField(a, f) == GetCafeField(b, f)
    ensures a == b
  {
    assert GetCafeField(a, NameField) == GetCafeField(b, NameField);
    assert GetCafeField(a, AddressField) == GetCafeField(b, AddressField);
    assert GetCafeField(a, PhoneField) == GetCafeField(b, PhoneField);
    assert GetCafeField(a, DescriptionField) == GetCafeField(b, DescriptionField);
    assert GetCafeField(a, IsActiveField) == GetCafeField(b, IsActiveField);
    assert GetCafeField(a, PhotoIdField) == GetCafeField(b, PhotoIdField);
  }

  /** The simple-field part of `CRUDCafe.update`: the `setattr` loop over the sent fields
      other than `managers_id`. */
  method AssignSimpleFields(cafe: Cafe, cafeIn: CafeUpdate) returns (updated: Cafe)
    ensures updated == UpdatedFields(cafe, cafeIn)
  {
    updated := cafe;
    var i := 0;
    while i < |SIMPLE_FIELDS|
      invariant 0 <= i <= |SIMPLE_FIELDS|
      invariant updated.id == cafe.id && updated.managers == cafe.managers
      invariant forall j :: 0 <= j < |SIMPLE_FIELDS| ==>
                  GetCafeField(updated, SIMPLE_FIELDS[j]) ==
                  (if j < i && SentValue(cafeIn, SIMPLE_FIELDS[j]).Some? then SentValue(cafeIn, SIMPLE_FIELDS[j]).value
                   else GetCafeField(cafe, SIMPLE_FIELDS[j]))
    {
      var f := SIMPLE_FIELDS[i];
      var sent := SentValue(cafeIn, f);
      if sent.Some? {
        updated := SetCafeField(updated, f, sent.value);
      }
      i := i + 1;
    }
    forall f ensures GetCafeField(updated, f) == GetCafeField(UpdatedFields(cafe, cafeIn), f) {
      assert f == SIMPLE_FIELDS[0] || f == SIMPLE_FIELDS[1] || f == SIMPLE_FIELDS[2]
          || f == SIMPLE_FIELDS[3] || f == SIMPLE_FIELDS[4] || f == SIMPLE_FIELDS[5];
    }
    CafeExtensionality(updated, UpdatedFields(cafe, cafeIn));
  }

  /** The managers an update leaves: unchanged when `managers_id` is absent, none when it is
      None or empty, the resolved users otherwise; None when some id does not resolve. */
  function UpdatedManagers(users: map<int, User>, current: set<int>, ids: Patch<Option<set<int>>>): (r: Option<set<int>>)
    ensures ids.Unset? ==> r == Some(current)
    ensures ids.Set? && !HasManagers(ids.value) ==> r == Some({})
    ensures ids.Set? && HasManagers(ids.value) ==>
              (r.Some? <==> ids.value.value <= users.Keys) && (r.Some? ==> r.value == ids.value.value)
  {
    match ids
    case Unset => Some(current)
    case Set(v) =>
      if !HasManagers(v) then Some({})
      else
        ResolvedCountIffAllExist(users, v.value);
        if |ResolvedManagers(users, v.value)| != |v.value| then None
        else Some(ResolvedManagers(users, v.value))
  }

  /** `CRUDCafe.update` on the stored cafe `cafeId`: the simple fields, then the managers link.
      An unresolved manager id raises ValueError before the commit, so nothing is stored. */
  method Update(db: Db, cafeId: int, cafeIn: CafeUpdate) returns (r: Outcome<Cafe>)
    requires db.Valid() && cafeId in db.cafes
    modifies db`cafes
    ensures db.Valid()
    ensures var managers := UpdatedManagers(old(db.users), old(db.cafes)[cafeId].managers, cafeIn.managersId);
            (managers.None? ==> r == Fail(ValueErr(MANAGERS_MISSING_MESSAGE)) && db.cafes == old(db.cafes))
            && (managers.Some? ==>
                  r == Ok(UpdatedFields(old(db.cafes)[cafeId], cafeIn).(managers := managers.value))
                  && db.cafes == old(db.cafes)[cafeId := r.value])
  {
    var cafe := AssignSimpleFields(db.cafes[cafeId], cafeIn);
    var managers := UpdatedManagers(db.users, cafe.managers, cafeIn.managersId);
    if managers.None? {
      return Fail(ValueErr(MANAGERS_MISSING_MESSAGE));
    }
    cafe := cafe.(managers := managers.value);
    db.cafes := db.cafes[cafeId := cafe];
    r := Ok(cafe);
  }

  /** An update without `managers_id` keeps the managers; an empty one clears them. */
  lemma ManagersUpdateCases(users: map<int, User>, current: set<int>)
    ensures UpdatedManagers(users, current, Unset) == Some(current)
    ensures UpdatedManagers(users, current, Set(Some({}))) == Some({})
    ensures UpdatedManagers(users, current, Set(None)) == Some({})
  {
  }
}
