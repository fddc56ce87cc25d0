/** Request schemas for bookings: `BookingCreate` requires every field and rejects past dates
    and non-positive numbers; in `BookingUpdate` every field is optional and each check applies
    only to a field that is present. */
module BookingSchemas {
  import opened Common
  import opened Entities
  import opened SchemaValidators

  const GUEST_FIELD := "Количество гостей"
  const NOT_POSITIVE_MESSAGE := "Input should be greater than 0"
  const BAD_STATUS_MESSAGE := "Input should be 0, 1 or 2"
  const NOTE_LENGTH_MESSAGE := "String length out of bounds"

  /** The length bounds of `NoteStr` (BOOKING_NOTE_MIN, BOOKING_NOTE_MAX). */
  datatype NoteBounds = NoteBounds(min: nat, max: nat)

  datatype BookingCreate = BookingCreate(
    cafeId: int,
    tablesId: seq<int>,
    slotsId: seq<int>,
    guestNumber: int,
    note: Option<string>,
    status: int,
    bookingDate: int)

  /** The fields of a booking update; None is a field that was not sent. `note` may be sent as null. */
  datatype BookingUpdate = BookingUpdate(
    cafeId: Option<int>,
    tablesId: Option<seq<int>>,
    slotsId: Option<seq<int>>,
    guestNumber: Option<int>,
    bookingDate: Option<int>,
    status: Option<int>,
    note: Patch<Option<string>>,
    isActive: Option<bool>)

  /** An update that sets nothing: every field defaults to absent. */
  const EMPTY_UPDATE := BookingUpdate(None, None, None, None, None, None, Unset, None)

  predicate IsBookingStatus(v: int) {
    v == STATUS_ACTIVE || v == STATUS_CANCELLED || v == STATUS_COMPLETED
  }

  predicate AllPositive(ids: seq<int>) {
    forall i :: 0 <= i < |ids| ==> ids[i] > 0
  }

  /** `PositiveInt`. */
  function PositiveInt(v: int): (r: Outcome<int>)
    ensures r.Ok? <==> v > 0
    ensures r.Ok? ==> r.value == v
  {
    if v > 0 then Ok(v) else Fail(ValueErr(NOT_POSITIVE_MESSAGE))
  }

  /** `List[PositiveInt]`. */
  function PositiveList(ids: seq<int>): (r: Outcome<seq<int>>)
    ensures r.Ok? <==> AllPositive(ids)
    ensures r.Ok? ==> r.value == ids
  {
    if AllPositive(ids) then Ok(ids) else Fail(ValueErr(NOT_POSITIVE_MESSAGE))
  }

  /** `Optional[NoteStr]`: None, or the stripped note within the bounds. */
  function NoteField(note: Option<string>, bounds: NoteBounds): (r: Outcome<Option<string>>)
    ensures r.Ok? <==> note.None? || bounds.min <= |Strip(note.value)| <= bounds.max
    ensures r.Ok? ==> r.value == (if note.Some? then Some(Strip(note.value)) else None)
  {
    match note
    case None => Ok(None)
    case Some(n) =>
      var s := Strip(n);
      if bounds.min <= |s| <= bounds.max then Ok(Some(s)) else Fail(ValueErr(NOTE_LENGTH_MESSAGE))
  }

  function StatusField(v: int): (r: Outcome<int>)
    ensures r.Ok? <==> IsBookingStatus(v)
    ensures r.Ok? ==> r.value == v
  {
    if IsBookingStatus(v) then Ok(v) else Fail(ValueErr(BAD_STATUS_MESSAGE))
  }

  /** The guest number: the `PositiveInt` constraint, then `validate_positive_number`. */
  function GuestField(v: int): (r: Outcome<int>)
    ensures r.Ok? <==> v > 0
    ensures r.Ok? ==> r.value == v
  {
    var g :- PositiveInt(v);
    ValidatePositiveNumber(g, GUEST_FIELD)
  }

  /** `BookingCreate` validation. */
  function ValidateBookingCreate(raw: BookingCreate, today: int, bounds: NoteBounds): (r: Outcome<BookingCreate>)
    ensures r.Ok? <==>
              raw.cafeId > 0 && AllPositive(raw.tablesId) && AllPositive(raw.slotsId)
              && raw.guestNumber > 0
              && (raw.note.None? || bounds.min <= |Strip(raw.note.value)| <= bounds.max)
              && IsBookingStatus(raw.status)
              && raw.bookingDate >= today
    ensures r.Ok? ==> r.value == raw.(note := if raw.note.Some? then Some(Strip(raw.note.value)) else None)
  {
    var cafeId :- PositiveInt(raw.cafeId);
    var tablesId :- PositiveList(raw.tablesId);
    var slotsId :- PositiveList(raw.slotsId);
    var guestNumber :- GuestField(raw.guestNumber);
    var note :- NoteField(raw.note, bounds);
    var status :- StatusField(raw.status);
    var bookingDate :- ValidateDateNotPast(raw.bookingDate, today);
    Ok(BookingCreate(cafeId, tablesId, slotsId, guestNumber, note, status, bookingDate))
  }

  /** An optional integer field checked by `check` only when present. */
  function OptionalInt(v: Option<int>, check: int -> Outcome<int>): (r: Outcome<Option<int>>)
    ensures v.None? ==> r == Ok(None)
    ensures v.Some? ==> (r.Ok? <==> check(v.value).Ok?)
    ensures v.Some? && r.Ok? ==> r.value == Some(check(v.value).value)
  {
    match v
    case None => Ok(None)
    case Some(x) =>
      var c :- check(x);
      Ok(Some(c))
  }

  function OptionalList(v: Option<seq<int>>): (r: Outcome<Option<seq<int>>>)
    ensures r.Ok? <==> v.None? || AllPositive(v.value)
    ensures r.Ok? ==> r.value == v
  {
    match v
    case None => Ok(None)
    case Some(ids) =>
      var c :- PositiveList(ids);
      Ok(Some(c))
  }

  /** `BookingUpdate` validation: the date and guest-number checks run only for present fields. */
  function ValidateBookingUpdate(raw: BookingUpdate, today: int, bounds: NoteBounds): (r: Outcome<BookingUpdate>)
    ensures r.Ok? <==>
              (raw.cafeId.Some? ==> raw.cafeId.value > 0)
              && (raw.tablesId.Some? ==> AllPositive(raw.tablesId.value))
              && (raw.slotsId.Some? ==> AllPositive(raw.slotsId.value))
              && (raw.guestNumber.Some? ==> raw.guestNumber.value > 0)
              && (raw.bookingDate.Some? ==> raw.bookingDate.value >= today)
              && (raw.status.Some? ==> IsBookingStatus(raw.status.value))
              && (raw.note.Set? && raw.note.value.Some? ==>
                    bounds.min <= |Strip(raw.note.value.value)| <= bounds.max)
    ensures r.Ok? ==>
              r.value.cafeId == raw.cafeId && r.value.tablesId == raw.tablesId
              && r.value.slotsId == raw.slotsId && r.value.guestNumber == raw.guestNumber
              && r.value.bookingDate == raw.bookingDate && r.value.status == raw.status
              && r.value.isActive == raw.isActive
              && r.value.note == (if raw.note.Set? && raw.note.value.Some?
                                  then Set(Some(Strip(raw.note.value.value))) else raw.note)
  {
    var cafeId :- OptionalInt(raw.cafeId, PositiveInt);
    var tablesId :- OptionalList(raw.tablesId);
    var slotsId :- OptionalList(raw.slotsId);
    var guestNumber :- OptionalInt(raw.guestNumber, GuestField);
    var bookingDate :- OptionalInt(raw.bookingDate, d => ValidateDateNotPast(d, today));
    var status :- OptionalInt(raw.status, StatusField);
    var note :- if raw.note.Set? then
                  var n :- NoteField(raw.note.value, bounds);
                  Ok(Set(n))
                else Ok(Unset);
    Ok(BookingUpdate(cafeId, tablesId, slotsId, guestNumber, bookingDate, status, note, raw.isActive))
  }

  /** The empty update is valid whatever the date. */
  lemma EmptyUpdateValid(today: int, bounds: NoteBounds)
    ensures ValidateBookingUpdate(EMPTY_UPDATE, today, bounds) == Ok(EMPTY_UPDATE)
  {
  }

  /** A past date is rejected on create and on update, whatever the other fields. */
  lemma PastDateRejected(raw: BookingCreate, today: int, bounds: NoteBounds)
    requires raw.bookingDate < today
    ensures ValidateBookingCreate(raw, today, bounds).Fail?
    ensures ValidateBookingUpdate(EMPTY_UPDATE.(bookingDate := Some(raw.bookingDate)), today, bounds).Fail?
  {
  }
}
