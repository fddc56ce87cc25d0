/** Booking checks: an existing ACTIVE booking, the ordered existence check of cafe, slots and
    tables, conflict detection against ACTIVE bookings, and the not-in-the-past date check. */
module BookingValidators {
  import opened Common
  import opened Entities

  const BOOKING_MISSING_MESSAGE := "Такой брони нет или она не активна."
  const PAST_BOOKING_MESSAGE := "Нельзя назначить бронь на прошедшую дату!"
  const CONFLICT_PREFIX := "Найдены конфликтующие бронирования. "

  /** `booking_exists`: the booking, provided it exists and its status is ACTIVE. */
  function BookingExists(bookings: map<int, Booking>, bookingId: int): (r: Outcome<Booking>)
    ensures r.Ok? <==> bookingId in bookings && bookings[bookingId].status == STATUS_ACTIVE
    ensures r.Ok? ==> r.value == bookings[bookingId]
    ensures r.Fail? ==> r == HttpFail(404, BOOKING_MISSING_MESSAGE)
  {
    if bookingId !in bookings || bookings[bookingId].status != STATUS_ACTIVE then
      HttpFail(404, BOOKING_MISSING_MESSAGE)
    else Ok(bookings[bookingId])
  }

  /** A CANCELLED or COMPLETED booking is reported exactly like a missing one. */
  lemma FinishedBookingIsMissing(bookings: map<int, Booking>, bookingId: int)
    requires bookingId in bookings
    requires bookings[bookingId].status in {STATUS_CANCELLED, STATUS_COMPLETED}
    ensures BookingExists(bookings, bookingId) == BookingExists(map[], bookingId)
  {
  }

  // ------------------------------------------------------------- conflicts

  /** Whether a stored booking is returned by the conflict query for the requested cafe,
      slots and tables. The booking date is not part of the query. */
  predicate Conflicts(b: Booking, cafeId: int, slots: set<int>, tables: set<int>) {
    b.cafeId == cafeId && b.slots * slots != {} && b.tables * tables != {} && b.status == STATUS_ACTIVE
  }

  /** The ids of the bookings the conflict query returns. */
  function ConflictingIds(bookings: map<int, Booking>, cafeId: int, slots: set<int>, tables: set<int>): (r: set<int>)
    ensures forall k :: k in r <==> k in bookings && Conflicts(bookings[k], cafeId, slots, tables)
  {
    set k | k in bookings && Conflicts(bookings[k], cafeId, slots, tables)
  }

  /** All slot ids of the given bookings, without repetition. */
  function SlotsOf(bookings: map<int, Booking>, ids: set<int>): set<int> {
    set k, s | k in ids && k in bookings && s in bookings[k].slots :: s
  }

  /** All table ids of the given bookings, without repetition. */
  function TablesOf(bookings: map<int, Booking>, ids: set<int>): set<int> {
    set k, t | k in ids && k in bookings && t in bookings[k].tables :: t
  }

  function ConflictMessage(slots: set<int>, tables: set<int>): string {
    CONFLICT_PREFIX + "Слоты: " + IntListRepr(SortedKeys(slots)) + ", Столы: " + IntListRepr(SortedKeys(tables))
  }

  /** `check_booking_conflicts`: 409 iff some ACTIVE booking of the cafe uses one of the requested
      slots and one of the requested tables; the message lists the slots and tables of all such bookings. */
  function CheckBookingConflicts(bookings: map<int, Booking>, cafeId: int,
                                 slotsId: seq<int>, tablesId: seq<int>): (r: Outcome<()>)
    ensures r.Fail? <==> exists k :: k in bookings && Conflicts(bookings[k], cafeId, ToSet(slotsId), ToSet(tablesId))
    ensures r.Fail? ==>
              var ids := ConflictingIds(bookings, cafeId, ToSet(slotsId), ToSet(tablesId));
              r == HttpFail(409, ConflictMessage(SlotsOf(bookings, ids), TablesOf(bookings, ids)))
  {
    var ids := ConflictingIds(bookings, cafeId, ToSet(slotsId), ToSet(tablesId));
    if ids != {} then
      assert exists k :: k in ids by { NonEmptyHasElement(ids); }
      HttpFail(409, ConflictMessage(SlotsOf(bookings, ids), TablesOf(bookings, ids)))
    else
      assert forall k :: k in bookings ==> k !in ids;
      Ok(())
  }

  /** Bookings of other cafes, or with a status other than ACTIVE, never cause a conflict. */
  lemma OtherCafesAndInactiveNeverConflict(bookings: map<int, Booking>, cafeId: int,
                                           slotsId: seq<int>, tablesId: seq<int>)
    requires forall k :: k in bookings ==> bookings[k].cafeId != cafeId || bookings[k].status != STATUS_ACTIVE
    ensures CheckBookingConflicts(bookings, cafeId, slotsId, tablesId) == Ok(())
  {
  }

  /** The (table, slot) cells a set of tables and a set of slots cover. */
  function Cells(tables: set<int>, slots: set<int>): set<(int, int)> {
    set t, s | t in tables && s in slots :: (t, s)
  }

  lemma CellsMember(tables: set<int>, slots: set<int>, c: (int, int))
    ensures c in Cells(tables, slots) <==> c.0 in tables && c.1 in slots
  {
    if c in Cells(tables, slots) {
      var t, s :| t in tables && s in slots && c == (t, s);
    }
    if c.0 in tables && c.1 in slots {
      var t, s := c.0, c.1;
      assert c == (t, s);
      assert (t, s) in Cells(tables, slots);
    }
  }

  lemma NonEmptyHasCell(c: set<(int, int)>)
    requires c != {}
    ensures exists x :: x in c
  {
    if forall x :: x !in c {
      assert false;
    }
  }

  /** Intersecting in tables and intersecting in slots is the same as sharing a (table, slot) cell. */
  lemma MembershipIffSharedCell(bookedTables: set<int>, bookedSlots: set<int>,
                                requestedTables: set<int>, requestedSlots: set<int>)
    ensures (bookedTables * requestedTables != {} && bookedSlots * requestedSlots != {})
            <==> Cells(bookedTables, bookedSlots) * Cells(requestedTables, requestedSlots) != {}
  {
    if bookedTables * requestedTables != {} && bookedSlots * requestedSlots != {} {
      NonEmptyHasElement(bookedTables * requestedTables);
      NonEmptyHasElement(bookedSlots * requestedSlots);
      var t :| t in bookedTables * requestedTables;
      var s :| s in bookedSlots * requestedSlots;
      CellsMember(bookedTables, bookedSlots, (t, s));
      CellsMember(requestedTables, requestedSlots, (t, s));
      assert (t, s) in Cells(bookedTables, bookedSlots) * Cells(requestedTables, requestedSlots);
    }
    if Cells(bookedTables, bookedSlots) * Cells(requestedTables, requestedSlots) != {} {
      NonEmptyHasCell(Cells(bookedTables, bookedSlots) * Cells(requestedTables, requestedSlots));
      var c :| c in Cells(bookedTables, bookedSlots) * Cells(requestedTables, requestedSlots);
      CellsMember(bookedTables, bookedSlots, c);
      CellsMember(requestedTables, requestedSlots, c);
      assert c.0 in bookedTables * requestedTables;
      assert c.1 in bookedSlots * requestedSlots;
    }
  }

  /** A booking conflicts iff it is an ACTIVE booking of the cafe sharing a (table, slot) cell
      with the request. */
  lemma ConflictIffSharedCell(b: Booking, cafeId: int, slots: set<int>, tables: set<int>)
    ensures Conflicts(b, cafeId, slots, tables) <==>
            b.cafeId == cafeId && b.status == STATUS_ACTIVE
            && Cells(b.tables, b.slots) * Cells(tables, slots) != {}
  {
    MembershipIffSharedCell(b.tables, b.slots, tables, slots);
  }

  /** Changing the date of a stored booking never changes the verdict or the message. */
  lemma ConflictIgnoresDate(bookings: map<int, Booking>, k: int, newDate: int, cafeId: int,
                            slotsId: seq<int>, tablesId: seq<int>)
    requires k in bookings
    ensures CheckBookingConflicts(bookings[k := bookings[k].(bookingDate := newDate)], cafeId, slotsId, tablesId)
            == CheckBookingConflicts(bookings, cafeId, slotsId, tablesId)
  {
    var moved := bookings[k := bookings[k].(bookingDate := newDate)];
    var slots, tables := ToSet(slotsId), ToSet(tablesId);
    assert ConflictingIds(moved, cafeId, slots, tables) == ConflictingIds(bookings, cafeId, slots, tables);
    var ids := ConflictingIds(bookings, cafeId, slots, tables);
    assert SlotsOf(moved, ids) == SlotsOf(bookings, ids);
    assert TablesOf(moved, ids) == TablesOf(bookings, ids);
  }

  // ------------------------------------------------------ ordered existence

  function CafeMissingMessage(cafeId: int): string {
    "Нет кафе с ID: " + IntToString(cafeId)
  }

  function SlotMissingMessage(slotId: int): string {
    "Нет временного слота с ID: " + IntToString(slotId)
  }

  function TableMissingMessage(tableId: int): string {
    "Нет стола с ID: " + IntToString(tableId)
  }

  /** `check_all_objects_id`: the cafe, then each slot in list order, then each table in list
      order must exist; only then are conflicts checked. */
  function CheckAllObjectsId(db: Snapshot, cafeId: int, slotsId: seq<int>, tablesId: seq<int>): (r: Outcome<()>)
    ensures cafeId !in db.cafes ==> r == HttpFail(404, CafeMissingMessage(cafeId))
    ensures cafeId in db.cafes && FirstMissing(slotsId, db.slots.Keys).Some? ==>
              r == HttpFail(404, SlotMissingMessage(FirstMissing(slotsId, db.slots.Keys).value))
    ensures cafeId in db.cafes && FirstMissing(slotsId, db.slots.Keys).None?
            && FirstMissing(tablesId, db.tables.Keys).Some? ==>
              r == HttpFail(404, TableMissingMessage(FirstMissing(tablesId, db.tables.Keys).value))
    ensures cafeId in db.cafes && (forall i :: 0 <= i < |slotsId| ==> slotsId[i] in db.slots)
            && (forall i :: 0 <= i < |tablesId| ==> tablesId[i] in db.tables) ==>
              r == CheckBookingConflicts(db.bookings, cafeId, slotsId, tablesId)
  {
    if cafeId !in db.cafes then HttpFail(404, CafeMissingMessage(cafeId))
    else
      match FirstMissing(slotsId, db.slots.Keys)
      case Some(s) => HttpFail(404, SlotMissingMessage(s))
      case None =>
        match FirstMissing(tablesId, db.tables.Keys)
        case Some(t) => HttpFail(404, TableMissingMessage(t))
        case None => CheckBookingConflicts(db.bookings, cafeId, slotsId, tablesId)
  }

  /** The check passes exactly when every id resolves and nothing conflicts. */
  lemma CheckAllObjectsIdPasses(db: Snapshot, cafeId: int, slotsId: seq<int>, tablesId: seq<int>)
    ensures CheckAllObjectsId(db, cafeId, slotsId, tablesId).Ok? <==>
            cafeId in db.cafes
            && (forall i :: 0 <= i < |slotsId| ==> slotsId[i] in db.slots)
            && (forall i :: 0 <= i < |tablesId| ==> tablesId[i] in db.tables)
            && forall k :: k in db.bookings ==> !Conflicts(db.bookings[k], cafeId, ToSet(slotsId), ToSet(tablesId))
  {
  }

  /** `check_booking_date`: 400 for a date strictly before today; today itself is accepted. */
  function CheckBookingDate(bookingDate: int, today: int): (r: Outcome<()>)
    ensures r.Fail? <==> bookingDate < today
    ensures r.Fail? ==> r == HttpFail(400, PAST_BOOKING_MESSAGE)
  {
    if bookingDate < today then HttpFail(400, PAST_BOOKING_MESSAGE) else Ok(())
  }
}
