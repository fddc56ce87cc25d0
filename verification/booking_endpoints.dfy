/** Decision logic of the booking endpoints: who sees which bookings, the order of the checks
    before a booking is created or updated, and the writes that follow. */
module BookingEndpoints {
  import opened Common
  import opened Entities
  import opened SlotValidators
  import opened BookingSchemas
  import opened BookingValidators
  import opened CrudBooking

  /** `admin_or_manager_check(user)`, which is not part of this model. */
  type StaffCheck = User -> bool

  /** `check_all_objects(cafe_id, slots_id, tables_id, booking_date, session[, booking_id])`,
      which is not part of this model. */
  type AllObjectsCheck = (Snapshot, int, seq<int>, seq<int>, int, Option<int>) -> Outcome<()>

  /** `check_current_user_booking(booking_id, user, session)`, which is not part of this model.
      `UpdateBooking` assumes of it only `ReturnsStored` below, which its name and its callers
      imply but which this model cannot check. */
  type CurrentBookingCheck = (Snapshot, int, User) -> Outcome<Booking>

  /** `ban_change_status(booking, obj_in)`, which is not part of this model. */
  type StatusBan = (Booking, BookingUpdate) -> Outcome<()>

  /** The assumption the update flow makes about `check_current_user_booking`: a booking it
      accepts is the stored booking with that id. */
  ghost predicate ReturnsStored(checkCurrent: CurrentBookingCheck, db: Snapshot) {
    forall id: int, u: User :: checkCurrent(db, id, u).Ok? ==>
      id in db.bookings && checkCurrent(db, id, u).value == db.bookings[id]
  }

  function IntOrNone(v: Option<int>): (r: Value)
    ensures v.None? <==> r == VNone
    ensures v.Some? ==> r == VInt(v.value)
  {
    if v.Some? then VInt(v.value) else VNone
  }

  function BoolOrNone(v: Option<bool>): (r: Value)
    ensures ValueTruthy(r) <==> v == Some(true)
  {
    if v.Some? then VBool(v.value) else VNone
  }

  /** `get_list_booking`: a truthy `cafe_id` must name an active cafe; a plain user then lists
      only their own active bookings, while staff filter by `show_all`, `cafe_id` and `user_id`. */
  function GetListBooking(db: Snapshot, isStaff: StaffCheck, user: User, showAll: Option<bool>,
                          cafeId: Option<int>, userId: Option<int>): (r: Outcome<seq<Booking>>)
    ensures cafeId.Some? && cafeId.value != 0 && CafeExists(db.cafes, cafeId.value).Fail? ==>
              r == HttpFail(404, CAFE_MISSING_MESSAGE)
    ensures (cafeId.None? || cafeId.value == 0 || CafeExists(db.cafes, cafeId.value).Ok?) ==> r.Ok?
    ensures r.Ok? && !isStaff(user) ==> forall b :: b in r.value <==>
              b in db.bookings.Values && b.isActive && b.userId == user.id
              && (cafeId.Some? ==> b.cafeId == cafeId.value)
    ensures r.Ok? && isStaff(user) ==> forall b :: b in r.value <==>
              b in db.bookings.Values && (showAll == Some(true) || b.isActive)
              && (cafeId.Some? ==> b.cafeId == cafeId.value)
              && (userId.Some? ==> b.userId == userId.value)
  {
    var _ :- if cafeId.Some? && cafeId.value != 0 then CafeExists(db.cafes, cafeId.value) else Ok(Cafe(0, "", "", "", None, None, true, {}));
    if !isStaff(user) then
      var kwargs := map["cafe_id" := IntOrNone(cafeId), "user_id" := VInt(user.id)];
      OwnFilters(user, cafeId, kwargs);
      Ok(GetMultiBooking(db.bookings, kwargs))
    else
      var kwargs := map[SHOW_ALL := BoolOrNone(showAll), "cafe_id" := IntOrNone(cafeId), "user_id" := IntOrNone(userId)];
      StaffFilters(showAll, cafeId, userId, kwargs);
      Ok(GetMultiBooking(db.bookings, kwargs))
  }

  lemma OwnFilters(user: User, cafeId: Option<int>, kwargs: map<string, Value>)
    requires kwargs == map["cafe_id" := IntOrNone(cafeId), "user_id" := VInt(user.id)]
    ensures SHOW_ALL !in kwargs
    ensures forall b: Booking :: MatchesFilters(b, kwargs - {SHOW_ALL}) <==>
              b.userId == user.id && (cafeId.Some? ==> b.cafeId == cafeId.value)
  {
    assert kwargs - {SHOW_ALL} == kwargs;
    forall b: Booking | b.userId == user.id && (cafeId.Some? ==> b.cafeId == cafeId.value)
      ensures MatchesFilters(b, kwargs)
    {
    }
    forall b: Booking | MatchesFilters(b, kwargs)
      ensures b.userId == user.id && (cafeId.Some? ==> b.cafeId == cafeId.value)
    {
      assert BookingAttr(b, "user_id").Some?;
      if cafeId.Some? {
        assert BookingAttr(b, "cafe_id").Some?;
      }
    }
  }

  lemma StaffFilters(showAll: Option<bool>, cafeId: Option<int>, userId: Option<int>, kwargs: map<string, Value>)
    requires kwargs == map[SHOW_ALL := BoolOrNone(showAll), "cafe_id" := IntOrNone(cafeId), "user_id" := IntOrNone(userId)]
    ensures SHOW_ALL in kwargs && (ValueTruthy(kwargs[SHOW_ALL]) <==> showAll == Some(true))
    ensures forall b: Booking :: MatchesFilters(b, kwargs - {SHOW_ALL}) <==>
              (cafeId.Some? ==> b.cafeId == cafeId.value) && (userId.Some? ==> b.userId == userId.value)
  {
    var filters := kwargs - {SHOW_ALL};
    assert filters == map["cafe_id" := IntOrNone(cafeId), "user_id" := IntOrNone(userId)];
    forall b: Booking | MatchesFilters(b, filters)
      ensures (cafeId.Some? ==> b.cafeId == cafeId.value) && (userId.Some? ==> b.userId == userId.value)
    {
      if cafeId.Some? {
        assert BookingAttr(b, "cafe_id").Some?;
      }
      if userId.Some? {
        assert BookingAttr(b, "user_id").Some?;
      }
    }
  }

  /** A plain user's listing never contains someone else's booking, whatever filters they pass.
      This holds of the handler alone: the response cache in front of it, which is not part of
      this model, keys on the role and `show_all` only (src/api/endpoints/booking.py:41-42), so a
      cached list could be served to another plain user. */
  lemma PlainUserListsOnlyOwn(db: Snapshot, isStaff: StaffCheck, user: User, showAll: Option<bool>,
                              cafeId: Option<int>, userId: Option<int>)
    requires !isStaff(user)
    requires GetListBooking(db, isStaff, user, showAll, cafeId, userId).Ok?
    ensures forall b :: b in GetListBooking(db, isStaff, user, showAll, cafeId, userId).value ==>
              b.userId == user.id && b.isActive
    ensures GetListBooking(db, isStaff, user, showAll, cafeId, userId)
            == GetListBooking(db, isStaff, user, None, cafeId, None)
  {
  }

  /** The checks `create_booking` makes before writing: the date first, then the existence and
      conflict checks. */
  function CreateBookingCheck(db: Snapshot, checkAll: AllObjectsCheck, payload: BookingCreate,
                              today: int): (r: Outcome<()>)
    ensures payload.bookingDate < today ==> r == HttpFail(400, PAST_BOOKING_MESSAGE)
    ensures payload.bookingDate >= today ==>
              r == checkAll(db, payload.cafeId, payload.slotsId, payload.tablesId, payload.bookingDate, None)
  {
    var _ :- CheckBookingDate(payload.bookingDate, today);
    checkAll(db, payload.cafeId, payload.slotsId, payload.tablesId, payload.bookingDate, None)
  }

  /** The booking stored for a validated payload. `booking_crud.create_booking(booking, user_id)`
      is defined nowhere; it is read as `CRUDBase.create` with `user_id` set, so the owner is the
      caller, the new booking is active, and every other field comes from the payload. */
  function NewBooking(id: int, payload: BookingCreate, user: User): (r: Booking)
    ensures r.id == id && r.userId == user.id && r.isActive
    ensures r.cafeId == payload.cafeId && r.guestNumber == payload.guestNumber && r.note == payload.note
    ensures r.status == payload.status && r.bookingDate == payload.bookingDate
    ensures forall t :: t in r.tables <==> t in payload.tablesId
    ensures forall s :: s in r.slots <==> s in payload.slotsId
  {
    Booking(id, user.id, payload.cafeId, payload.guestNumber, payload.note, payload.status,
            payload.bookingDate, ToSet(payload.tablesId), ToSet(payload.slotsId), true)
  }

  /** `create_booking`: the checks above, then the insert of a booking owned by the caller. */
  method CreateBooking(db: Db, checkAll: AllObjectsCheck, payload: BookingCreate, user: User,
                       today: int) returns (r: Outcome<Booking>)
    requires db.Valid()
    modifies db`bookings, db`nextId
    ensures db.Valid()
    ensures var check := CreateBookingCheck(old(db.Snap()), checkAll, payload, today);
            (check.Fail? ==> r == Fail(check.exc) && db.bookings == old(db.bookings))
            && (check.Ok? ==>
                  r.Ok? && r.value.id !in old(db.bookings)
                  && r.value == NewBooking(r.value.id, payload, user)
                  && db.bookings == old(db.bookings)[r.value.id := r.value])
  {
    var check := CreateBookingCheck(db.Snap(), checkAll, payload, today);
    if check.Fail? {
      return Fail(check.exc);
    }
    var id := db.NewId();
    var booking := NewBooking(id, payload, user);
    db.bookings := db.bookings[id := booking];
    r := Ok(booking);
  }

  /** `get_booking`: a plain user gets their own booking or nothing; staff get any ACTIVE booking. */
  function GetBooking(db: Snapshot, isStaff: StaffCheck, bookingId: int, user: User): (r: Outcome<Option<Booking>>)
    ensures !isStaff(user) ==> r.Ok?
    ensures !isStaff(user) ==> (r.value.Some? <==> bookingId in db.bookings && db.bookings[bookingId].userId == user.id)
    ensures isStaff(user) ==> (r.Ok? <==> bookingId in db.bookings && db.bookings[bookingId].status == STATUS_ACTIVE)
    ensures isStaff(user) && r.Fail? ==> r == HttpFail(404, BOOKING_MISSING_MESSAGE)
    ensures r.Ok? && r.value.Some? ==> bookingId in db.bookings && r.value.value == db.bookings[bookingId]
  {
    if !isStaff(user) then Ok(GetBookingCurrentUser(db.bookings, bookingId, user))
    else
      var b :- BookingExists(db.bookings, bookingId);
      Ok(Some(b))
  }

  /** The first check `update_booking` makes: a plain user's booking through
      `check_current_user_booking`; for staff, an ACTIVE booking (404 otherwise) of a cafe they may
      manage (403 otherwise). */
  function UpdateGuard(db: Snapshot, isStaff: StaffCheck, checkCurrent: CurrentBookingCheck, bookingId: int,
                       user: User): (r: Outcome<Booking>)
    ensures !isStaff(user) ==> r == checkCurrent(db, bookingId, user)
    ensures isStaff(user) && BookingExists(db.bookings, bookingId).Fail? ==>
              r == HttpFail(404, BOOKING_MISSING_MESSAGE)
    ensures isStaff(user) && BookingExists(db.bookings, bookingId).Ok?
            && UserCanManageCafe(user, ManagedCafes(db.cafes, user.id), db.bookings[bookingId].cafeId).Fail? ==>
              r == HttpFail(403, NO_ACCESS_MESSAGE)
    ensures isStaff(user) ==>
              (r.Ok? <==> BookingExists(db.bookings, bookingId).Ok?
                          && UserCanManageCafe(user, ManagedCafes(db.cafes, user.id), db.bookings[bookingId].cafeId).Ok?)
    ensures isStaff(user) && r.Ok? ==> r.value == db.bookings[bookingId] && r.value.status == STATUS_ACTIVE
  {
    if !isStaff(user) then checkCurrent(db, bookingId, user)
    else
      var b :- BookingExists(db.bookings, bookingId);
      var _ :- UserCanManageCafe(user, ManagedCafes(db.cafes, user.id), b.cafeId);
      Ok(b)
  }

  /** The existence and conflict check as `update_booking` calls it: the booking's stored cafe,
      slots, tables and date, with its own id excluded. */
  function CheckStored(db: Snapshot, checkAll: AllObjectsCheck, b: Booking): Outcome<()> {
    checkAll(db, b.cafeId, SortedKeys(b.slots), SortedKeys(b.tables), b.bookingDate, Some(b.id))
  }

  /** The checks `update_booking` makes before writing, in order: the guard above, then the
      existence and conflict check, then `ban_change_status`; the booking to update on success. */
  function UpdateBookingCheck(db: Snapshot, isStaff: StaffCheck, checkCurrent: CurrentBookingCheck,
                              checkAll: AllObjectsCheck, banChange: StatusBan, bookingId: int,
                              payload: BookingUpdate, user: User): (r: Outcome<Booking>)
    ensures !isStaff(user) && checkCurrent(db, bookingId, user).Fail? ==>
              r == Fail(checkCurrent(db, bookingId, user).exc)
    ensures isStaff(user) && BookingExists(db.bookings, bookingId).Fail? ==>
              r == HttpFail(404, BOOKING_MISSING_MESSAGE)
    ensures isStaff(user) && BookingExists(db.bookings, bookingId).Ok?
            && UserCanManageCafe(user, ManagedCafes(db.cafes, user.id), db.bookings[bookingId].cafeId).Fail? ==>
              r == HttpFail(403, NO_ACCESS_MESSAGE)
    ensures var g := UpdateGuard(db, isStaff, checkCurrent, bookingId, user);
            g.Ok? && CheckStored(db, checkAll, g.value).Fail? ==> r == Fail(CheckStored(db, checkAll, g.value).exc)
    ensures var g := UpdateGuard(db, isStaff, checkCurrent, bookingId, user);
            g.Ok? && CheckStored(db, checkAll, g.value).Ok? && banChange(g.value, payload).Fail? ==>
              r == Fail(banChange(g.value, payload).exc)
    ensures var g := UpdateGuard(db, isStaff, checkCurrent, bookingId, user);
            r.Ok? <==> g.Ok? && CheckStored(db, checkAll, g.value).Ok? && banChange(g.value, payload).Ok?
    ensures r.Ok? ==> r == UpdateGuard(db, isStaff, checkCurrent, bookingId, user)
  {
    var booking :- UpdateGuard(db, isStaff, checkCurrent, bookingId, user);
    var _ :- CheckStored(db, checkAll, booking);
    var _ :- banChange(booking, payload);
    Ok(booking)
  }

  /** A plain user's update only ever reaches a booking `check_current_user_booking` accepted. */
  lemma PlainUserUpdatesOnlyAccepted(db: Snapshot, isStaff: StaffCheck, checkCurrent: CurrentBookingCheck,
                                     checkAll: AllObjectsCheck, banChange: StatusBan, bookingId: int,
                                     payload: BookingUpdate, user: User)
    requires !isStaff(user)
    requires checkCurrent(db, bookingId, user).Fail?
    ensures UpdateBookingCheck(db, isStaff, checkCurrent, checkAll, banChange, bookingId, payload, user).Fail?
  {
  }

  /** `CRUDBase.update` on a booking: every payload field the booking has as an attribute is
      assigned when set, the rest is kept. The booking has `tables` and `slots` but no `tables_id`
      or `slots_id` attribute, so the `hasattr` guard skips those two payload fields and the
      linked tables and slots never change; the id and the owner are never changed either. */
  function ApplyBookingUpdate(b: Booking, payload: BookingUpdate): (r: Booking)
    ensures r.id == b.id && r.userId == b.userId
    ensures r.cafeId == (if payload.cafeId.Some? then payload.cafeId.value else b.cafeId)
    ensures r.guestNumber == (if payload.guestNumber.Some? then payload.guestNumber.value else b.guestNumber)
    ensures r.bookingDate == (if payload.bookingDate.Some? then payload.bookingDate.value else b.bookingDate)
    ensures r.status == (if payload.status.Some? then payload.status.value else b.status)
    ensures r.note == payload.note.Or(b.note)
    ensures r.isActive == (if payload.isActive.Some? then payload.isActive.value else b.isActive)
    ensures r.tables == b.tables && r.slots == b.slots
  {
    Booking(b.id, b.userId,
            if payload.cafeId.Some? then payload.cafeId.value else b.cafeId,
            if payload.guestNumber.Some? then payload.guestNumber.value else b.guestNumber,
            payload.note.Or(b.note),
            if payload.status.Some? then payload.status.value else b.status,
            if payload.bookingDate.Some? then payload.bookingDate.value else b.bookingDate,
            b.tables, b.slots,
            if payload.isActive.Some? then payload.isActive.value else b.isActive)
  }

  /** An update that sets nothing leaves the booking as it was. */
  lemma EmptyBookingUpdateIsIdentity(b: Booking)
    ensures ApplyBookingUpdate(b, EMPTY_UPDATE) == b
  {
  }

  /** `update_booking`: the checks above, then the payload is applied to the stored booking. */
  method UpdateBooking(db: Db, isStaff: StaffCheck, checkCurrent: CurrentBookingCheck,
                       checkAll: AllObjectsCheck, banChange: StatusBan, bookingId: int,
                       payload: BookingUpdate, user: User) returns (r: Outcome<Booking>)
    requires db.Valid()
    requires ReturnsStored(checkCurrent, db.Snap())
    modifies db`bookings
    ensures db.Valid()
    ensures var check := UpdateBookingCheck(old(db.Snap()), isStaff, checkCurrent, checkAll, banChange,
                                            bookingId, payload, user);
            (check.Fail? ==> r == Fail(check.exc) && db.bookings == old(db.bookings))
            && (check.Ok? ==>
                  bookingId in old(db.bookings) && check.value == old(db.bookings)[bookingId]
                  && r == Ok(ApplyBookingUpdate(check.value, payload))
                  && db.bookings == old(db.bookings)[bookingId := r.value])
  {
    var check := UpdateBookingCheck(db.Snap(), isStaff, checkCurrent, checkAll, banChange,
                                    bookingId, payload, user);
    if check.Fail? {
      return Fail(check.exc);
    }
    var updated := ApplyBookingUpdate(check.value, payload);
    db.bookings := db.bookings[bookingId := updated];
    r := Ok(updated);
  }
}
