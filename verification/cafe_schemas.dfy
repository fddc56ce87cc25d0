/** Request schemas for cafes: stripped, length-bounded name, address and phone; a blank
    description becomes None; the requested managers form a set. */
module CafeSchemas {
  import opened Common

  const LENGTH_MESSAGE := "String length out of bounds"
  const CAFE_NAME_MIN := 2
  const CAFE_ADDRESS_MIN := 5

  /** CAFE_NAME_MAX, CAFE_ADDRESS_MAX and PHONE_MAX, whose values are not part of this model. */
  datatype CafeLimits = CafeLimits(nameMax: nat, addressMax: nat, phoneMax: nat)

  /** A create request as received; `managersId` is the JSON list before it becomes a set. */
  datatype CafeCreateRequest = CafeCreateRequest(
    name: string,
    address: string,
    phone: string,
    description: Option<string>,
    photoId: Option<string>,
    managersId: Option<seq<int>>)

  datatype CafeCreate = CafeCreate(
    name: string,
    address: string,
    phone: string,
    description: Option<string>,
    photoId: Option<string>,
    managersId: Option<set<int>>)

  /** An update request as received; absent fields are None/Unset. For name, address and phone
      an explicit null is folded into None here, although the store would write it and the NOT
      NULL columns would refuse it at commit. */
  datatype CafeUpdateRequest = CafeUpdateRequest(
    name: Option<string>,
    address: Option<string>,
    phone: Option<string>,
    description: Patch<Option<string>>,
    isActive: Option<bool>,
    photoId: Patch<Option<string>>,
    managersId: Patch<Option<seq<int>>>)

  datatype CafeUpdate = CafeUpdate(
    name: Option<string>,
    address: Option<string>,
    phone: Option<string>,
    description: Patch<Option<string>>,
    isActive: Option<bool>,
    photoId: Patch<Option<string>>,
    managersId: Patch<Option<set<int>>>)

  /** `empty_str_to_none`: a whitespace-only string becomes None; anything else is kept. */
  function EmptyStrToNone(v: Option<string>): (r: Option<string>)
    ensures v.Some? && IsBlank(v.value) ==> r.None?
    ensures !(v.Some? && IsBlank(v.value)) ==> r == v
  {
    if v.Some? && IsBlank(v.value) then None else v
  }

  /** The description: `empty_str_to_none` runs before the whitespace strip. */
  function DescriptionField(v: Option<string>): (r: Option<string>)
    ensures r.None? <==> v.None? || IsBlank(v.value)
    ensures r.Some? ==> r.value == Strip(v.value) && r.value != []
  {
    match EmptyStrToNone(v)
    case None => None
    case Some(s) =>
      StripBlank(s);
      Some(Strip(s))
  }

  /** A stripped string whose length lies within [min, max]. */
  function BoundedStr(raw: string, min: nat, max: nat): (r: Outcome<string>)
    ensures r.Ok? <==> min <= |Strip(raw)| <= max
    ensures r.Ok? ==> r.value == Strip(raw)
  {
    var s := Strip(raw);
    if min <= |s| <= max then Ok(s) else Fail(ValueErr(LENGTH_MESSAGE))
  }

  /** The JSON list of manager ids read as a set: duplicates collapse. */
  function ManagerSet(ids: Option<seq<int>>): (r: Option<set<int>>)
    ensures ids.None? <==> r.None?
    ensures ids.Some? ==> forall m :: m in r.value <==> m in ids.value
  {
    if ids.Some? then Some(ToSet(ids.value)) else None
  }

  /** `CafeCreate` validation. */
  function ValidateCafeCreate(raw: CafeCreateRequest, limits: CafeLimits): (r: Outcome<CafeCreate>)
    ensures r.Ok? <==>
              CAFE_NAME_MIN <= |Strip(raw.name)| <= limits.nameMax
              && CAFE_ADDRESS_MIN <= |Strip(raw.address)| <= limits.addressMax
              && |Strip(raw.phone)| <= limits.phoneMax
    ensures r.Ok? ==>
              r.value == CafeCreate(Strip(raw.name), Strip(raw.address), Strip(raw.phone),
                                    DescriptionField(raw.description), raw.photoId, ManagerSet(raw.managersId))
  {
    var name :- BoundedStr(raw.name, CAFE_NAME_MIN, limits.nameMax);
    var address :- BoundedStr(raw.address, CAFE_ADDRESS_MIN, limits.addressMax);
    var phone :- BoundedStr(raw.phone, 0, limits.phoneMax);
    Ok(CafeCreate(name, address, phone, DescriptionField(raw.description), raw.photoId, ManagerSet(raw.managersId)))
  }

  function OptionalBounded(raw: Option<string>, min: nat, max: nat): (r: Outcome<Option<string>>)
    ensures r.Ok? <==> raw.None? || min <= |Strip(raw.value)| <= max
    ensures r.Ok? ==> r.value == (if raw.Some? then Some(Strip(raw.value)) else None)
  {
    match raw
    case None => Ok(None)
    case Some(s) =>
      var v :- BoundedStr(s, min, max);
      Ok(Some(v))
  }

  /** `CafeUpdate` validation: each present field is checked as on create. */
  function ValidateCafeUpdate(raw: CafeUpdateRequest, limits: CafeLimits): (r: Outcome<CafeUpdate>)
    ensures r.Ok? <==>
              (raw.name.Some? ==> CAFE_NAME_MIN <= |Strip(raw.name.value)| <= limits.nameMax)
              && (raw.address.Some? ==> CAFE_ADDRESS_MIN <= |Strip(raw.address.value)| <= limits.addressMax)
              && (raw.phone.Some? ==> |Strip(raw.phone.value)| <= limits.phoneMax)
    ensures r.Ok? ==>
              r.value.isActive == raw.isActive && r.value.photoId == raw.photoId
              && (raw.description.Set? <==> r.value.description.Set?)
              && (raw.description.Set? ==> r.value.description.value == DescriptionField(raw.description.value))
              && (raw.managersId.Set? <==> r.value.managersId.Set?)
              && (raw.managersId.Set? ==> r.value.managersId.value == ManagerSet(raw.managersId.value))
  {
    var name :- OptionalBounded(raw.name, CAFE_NAME_MIN, limits.nameMax);
    var address :- OptionalBounded(raw.address, CAFE_ADDRESS_MIN, limits.addressMax);
    var phone :- OptionalBounded(raw.phone, 0, limits.phoneMax);
    var description := if raw.description.Set? then Set(DescriptionField(raw.description.value)) else Unset;
    var managers := if raw.managersId.Set? then Set(ManagerSet(raw.managersId.value)) else Unset;
    Ok(CafeUpdate(name, address, phone, description, raw.isActive, raw.photoId, managers))
  }

  /** A whitespace-only description is stored as None, on create and on update alike. */
  lemma BlankDescriptionIsNone(raw: CafeCreateRequest, update: CafeUpdateRequest, limits: CafeLimits)
    requires raw.description.Some? && IsBlank(raw.description.value)
    requires update.description == Set(raw.description)
    requires ValidateCafeCreate(raw, limits).Ok? && ValidateCafeUpdate(update, limits).Ok?
    ensures ValidateCafeCreate(raw, limits).value.description.None?
    ensures ValidateCafeUpdate(update, limits).value.description == Set(None)
  {
  }

  /** Repeating manager ids changes nothing: the schema keeps a set. */
  lemma DuplicateManagersCollapse(raw: CafeCreateRequest, limits: CafeLimits)
    requires raw.managersId.Some?
    ensures ValidateCafeCreate(raw.(managersId := Some(raw.managersId.value + raw.managersId.value)), limits)
            == ValidateCafeCreate(raw, limits)
  {
    var ids := raw.managersId.value;
    assert ToSet(ids + ids) == ToSet(ids);
  }
}
