/** Booking queries: the keyword-filtered listing and the lookup of one user's booking. */
module CrudBooking {
  import opened Common
  import opened Entities

  const SHOW_ALL := "show_all"

  /** The value of a booking column by its attribute name; None for a name the model lacks. */
  function BookingAttr(b: Booking, name: string): (r: Option<Value>)
    ensures name == "id" ==> r == Some(VInt(b.id))
    ensures name == "user_id" ==> r == Some(VInt(b.userId))
    ensures name == "cafe_id" ==> r == Some(VInt(b.cafeId))
    ensures name == "status" ==> r == Some(VInt(b.status))
    ensures name == "is_active" ==> r == Some(VBool(b.isActive))
    ensures r.None? <==> name !in {"id", "user_id", "cafe_id", "guest_number", "note", "status",
                                   "booking_date", "is_active"}
  {
    if name == "id" then Some(VInt(b.id))
    else if name == "user_id" then Some(VInt(b.userId))
    else if name == "cafe_id" then Some(VInt(b.cafeId))
    else if name == "guest_number" then Some(VInt(b.guestNumber))
    else if name == "note" then Some(if b.note.Some? then VStr(b.note.value) else VNone)
    else if name == "status" then Some(VInt(b.status))
    else if name == "booking_date" then Some(VInt(b.bookingDate))
    else if name == "is_active" then Some(VBool(b.isActive))
    else None
  }

  /** Python truthiness of a keyword value. */
  predicate ValueTruthy(v: Value) {
    match v
    case VInt(i) => i != 0
    case VStr(s) => s != ""
    case VBool(b) => b
    case VNone => false
  }

  /** Whether a booking passes every keyword filter: a keyword whose value is not None and
      that names a model attribute must equal that attribute; the others are ignored. */
  predicate MatchesFilters(b: Booking, filters: map<string, Value>) {
    forall field :: field in filters && filters[field] != VNone && BookingAttr(b, field).Some? ==>
      BookingAttr(b, field).value == filters[field]
  }

  /** `get_multi_booking(**kwargs)`: `show_all` is popped first (default False); unless it is
      truthy only active bookings are kept; every other keyword is an optional equality filter. */
  function GetMultiBooking(bookings: map<int, Booking>, kwargs: map<string, Value>): (r: seq<Booking>)
    ensures forall b :: b in r <==>
              b in bookings.Values
              && ((SHOW_ALL in kwargs && ValueTruthy(kwargs[SHOW_ALL])) || b.isActive)
              && MatchesFilters(b, kwargs - {SHOW_ALL})
  {
    var showAll := SHOW_ALL in kwargs && ValueTruthy(kwargs[SHOW_ALL]);
    var filters := kwargs - {SHOW_ALL};
    Filter(Rows(bookings), (b: Booking) => (showAll || b.isActive) && MatchesFilters(b, filters))
  }

  /** A `show_all` keyword is never applied as a column filter, and without a truthy
      `show_all` no inactive booking is listed. */
  lemma ShowAllNeverFilters(bookings: map<int, Booking>, kwargs: map<string, Value>, v: Value)
    requires !ValueTruthy(v)
    ensures forall b :: b in GetMultiBooking(bookings, kwargs[SHOW_ALL := v]) ==> b.isActive
    ensures forall b :: b in GetMultiBooking(bookings, kwargs[SHOW_ALL := v]) <==>
                        b in GetMultiBooking(bookings, kwargs - {SHOW_ALL})
  {
    assert kwargs[SHOW_ALL := v] - {SHOW_ALL} == kwargs - {SHOW_ALL};
  }

  /** A keyword whose value is None filters nothing. */
  lemma NoneKeywordIgnored(bookings: map<int, Booking>, kwargs: map<string, Value>, field: string)
    requires field != SHOW_ALL
    ensures forall x :: x in GetMultiBooking(bookings, kwargs[field := VNone]) <==>
                        x in GetMultiBooking(bookings, kwargs - {field})
  {
    var a, b := kwargs[field := VNone] - {SHOW_ALL}, kwargs - {field} - {SHOW_ALL};
    forall x: Booking ensures MatchesFilters(x, a) == MatchesFilters(x, b) {
      if MatchesFilters(x, b) {
        forall f | f in a && a[f] != VNone && BookingAttr(x, f).Some?
          ensures BookingAttr(x, f).value == a[f]
        {
          assert f in b;
        }
      }
    }
    assert kwargs[field := VNone] - {SHOW_ALL} == a;
    assert kwargs - {field} - {SHOW_ALL} == b;
    assert (kwargs - {field}) - {SHOW_ALL} == b;
  }

  /** `get_booking_current_user`: the booking with that id, provided it belongs to the user. */
  function GetBookingCurrentUser(bookings: map<int, Booking>, bookingId: int, user: User): (r: Option<Booking>)
    ensures r.Some? <==> bookingId in bookings && bookings[bookingId].userId == user.id
    ensures r.Some? ==> r.value == bookings[bookingId] && r.value.userId == user.id
  {
    if bookingId in bookings && bookings[bookingId].userId == user.id then Some(bookings[bookingId]) else None
  }
}
