/** Decision logic of the slot endpoints: listing visibility, the ordered checks before a
    slot is created or updated, and the deactivation short-cut of an update. */
module SlotEndpoints {
  import opened Common
  import opened Entities
  import opened SlotSchemas
  import opened SlotValidators
  import opened CrudSlots
  import Deps

  const TIMES_REQUIRED_MESSAGE := "start_time и end_time обязательны для слота"
  const BOTH_TIMES_MESSAGE := "Для обновления времени оба поля start_time и end_time обязательны"
  const NO_CAFE_ID_ATTRIBUTE := "'TimeSlotCreate' object has no attribute 'cafe_id'"

  /** What the overlap check sees of a create or update payload. */
  datatype SlotPayloadView = SlotPayloadView(
    cafeId: Option<int>,
    startTime: Option<string>,
    endTime: Option<string>,
    description: Option<string>)

  /** `validate_no_time_overlap(payload, session, exclude_id)`, which the slot validators module
      does not define; left abstract. */
  type OverlapCheck = (Snapshot, SlotPayloadView, Option<int>) -> Outcome<()>

  /** The listing includes inactive slots only for an ADMIN or MANAGER who asked for them. */
  predicate ShowsInactive(currentUser: Option<User>, showAll: bool) {
    showAll && currentUser.Some? && IsStaffRole(currentUser.value.role)
  }

  /** `list_slots`. */
  function ListSlots(cafes: map<int, Cafe>, slots: map<int, Slot>, cafeId: int,
                     currentUser: Option<User>, showAll: bool): (r: Outcome<seq<Slot>>)
    ensures r.Fail? <==> CafeExists(cafes, cafeId).Fail?
    ensures r.Fail? ==> r == HttpFail(404, CAFE_MISSING_MESSAGE)
    ensures r.Ok? ==> forall s :: s in r.value <==>
              s in slots.Values && s.cafeId == cafeId && (s.isActive || ShowsInactive(currentUser, showAll))
  {
    var cafe :- CafeExists(cafes, cafeId);
    var onlyActive := !ShowsInactive(currentUser, showAll);
    Ok(GetByCafe(slots, cafeId, onlyActive))
  }

  /** A plain user or an anonymous caller never sees an inactive slot, whatever `show_all` says. */
  lemma ListingHidesInactiveFromUsers(cafes: map<int, Cafe>, slots: map<int, Slot>, cafeId: int,
                                      currentUser: Option<User>, showAll: bool)
    requires currentUser.None? || !IsStaffRole(currentUser.value.role)
    requires ListSlots(cafes, slots, cafeId, currentUser, showAll).Ok?
    ensures forall s :: s in ListSlots(cafes, slots, cafeId, currentUser, showAll).value ==> s.isActive
  {
  }

  /** `get_slot`. */
  function GetSlot(slots: map<int, Slot>, slotId: int): (r: Outcome<Slot>)
    ensures r.Ok? <==> slotId in slots && slots[slotId].isActive
    ensures r.Ok? ==> r.value == slots[slotId]
    ensures slotId !in slots ==> r == HttpFail(404, SLOT_MISSING_MESSAGE)
    ensures slotId in slots && !slots[slotId].isActive ==> r == HttpFail(403, SLOT_INACTIVE_MESSAGE)
  {
    var slot :- SlotExists(slots, slotId);
    var _ :- SlotActive(slot);
    Ok(slot)
  }

  /** The checks `create_slot` makes before writing, in order; the cafe id on success. The
      `require_manager_or_admin` dependency refuses every other role before the body runs.
      `cafeIdAttr` is the payload's `cafe_id` attribute, None when the payload has none. */
  function CreateSlotCheck(db: Snapshot, noOverlap: OverlapCheck, payload: TimeSlotCreate,
                           cafeIdAttr: Option<int>, user: User): (r: Outcome<int>)
    ensures !IsStaffRole(user.role) ==> r == HttpFail(403, Deps.FORBIDDEN_MESSAGE)
    ensures IsStaffRole(user.role) && (payload.startTime == "" || payload.endTime == "") ==>
              r == HttpFail(400, TIMES_REQUIRED_MESSAGE)
    ensures IsStaffRole(user.role) && payload.startTime != "" && payload.endTime != "" && cafeIdAttr.None? ==>
              r == Fail(AttributeErr(NO_CAFE_ID_ATTRIBUTE))
    ensures IsStaffRole(user.role) && payload.startTime != "" && payload.endTime != "" && cafeIdAttr.Some?
            && CafeExists(db.cafes, cafeIdAttr.value).Fail? ==>
              r == HttpFail(404, CAFE_MISSING_MESSAGE)
    ensures IsStaffRole(user.role) && payload.startTime != "" && payload.endTime != "" && cafeIdAttr.Some?
            && CafeExists(db.cafes, cafeIdAttr.value).Ok?
            && UserCanManageCafe(user, ManagedCafes(db.cafes, user.id), cafeIdAttr.value).Fail? ==>
              r == HttpFail(403, NO_ACCESS_MESSAGE)
    ensures var view := SlotPayloadView(cafeIdAttr, Some(payload.startTime), Some(payload.endTime),
                                        Some(payload.description));
            IsStaffRole(user.role) && payload.startTime != "" && payload.endTime != "" && cafeIdAttr.Some?
            && CafeExists(db.cafes, cafeIdAttr.value).Ok?
            && UserCanManageCafe(user, ManagedCafes(db.cafes, user.id), cafeIdAttr.value).Ok?
            && noOverlap(db, view, None).Fail? ==>
              r == Fail(noOverlap(db, view, None).exc)
    ensures r.Ok? <==>
              IsStaffRole(user.role) && payload.startTime != "" && payload.endTime != "" && cafeIdAttr.Some?
              && CafeExists(db.cafes, cafeIdAttr.value).Ok?
              && UserCanManageCafe(user, ManagedCafes(db.cafes, user.id), cafeIdAttr.value).Ok?
              && noOverlap(db, SlotPayloadView(cafeIdAttr, Some(payload.startTime), Some(payload.endTime),
                                               Some(payload.description)), None).Ok?
    ensures r.Ok? ==> r.value == cafeIdAttr.value
  {
    var _ :- Deps.RequireManagerOrAdmin(user);
    if payload.startTime == "" || payload.endTime == "" then HttpFail(400, TIMES_REQUIRED_MESSAGE)
    else if cafeIdAttr.None? then Fail(AttributeErr(NO_CAFE_ID_ATTRIBUTE))
    else
      var cafeId := cafeIdAttr.value;
      var cafe :- CafeExists(db.cafes, cafeId);
      var _ :- UserCanManageCafe(user, ManagedCafes(db.cafes, user.id), cafeId);
      var _ :- noOverlap(db, SlotPayloadView(cafeIdAttr, Some(payload.startTime), Some(payload.endTime),
                                             Some(payload.description)), None);
      Ok(cafeId)
  }

  /** `create_slot`: the checks above, then the insert of an active slot. */
  method CreateSlot(db: Db, noOverlap: OverlapCheck, payload: TimeSlotCreate,
                    cafeIdAttr: Option<int>, user: User) returns (r: Outcome<Slot>)
    requires db.Valid()
    modifies db`slots, db`nextId
    ensures db.Valid()
    ensures var check := CreateSlotCheck(old(db.Snap()), noOverlap, payload, cafeIdAttr, user);
            (check.Fail? ==> r == Fail(check.exc) && db.slots == old(db.slots))
            && (check.Ok? ==>
                  r.Ok? && r.value.id !in old(db.slots)
                  && r.value == Slot(r.value.id, check.value, payload.startTime, payload.endTime,
                                     payload.description, true)
                  && db.slots == old(db.slots)[r.value.id := r.value])
  {
    var check := CreateSlotCheck(db.Snap(), noOverlap, payload, cafeIdAttr, user);
    if check.Fail? {
      return Fail(check.exc);
    }
    var id := db.NewId();
    var slot := Slot(id, check.value, payload.startTime, payload.endTime, payload.description, true);
    db.slots := db.slots[id := slot];
    r := Ok(slot);
  }

  /** The checks `update_slot` makes before writing, in order; the stored slot on success. The
      `require_manager_or_admin` dependency refuses every other role before the body runs. */
  function UpdateSlotCheck(db: Snapshot, noOverlap: OverlapCheck, slotId: int,
                           payload: TimeSlotUpdate, user: User): (r: Outcome<Slot>)
    ensures !IsStaffRole(user.role) ==> r == HttpFail(403, Deps.FORBIDDEN_MESSAGE)
    ensures IsStaffRole(user.role) && slotId !in db.slots ==> r == HttpFail(404, SLOT_MISSING_MESSAGE)
    ensures IsStaffRole(user.role) && slotId in db.slots && !db.slots[slotId].isActive ==>
              r == HttpFail(403, SLOT_INACTIVE_MESSAGE)
    ensures IsStaffRole(user.role) && slotId in db.slots && db.slots[slotId].isActive
            && CafeExists(db.cafes, db.slots[slotId].cafeId).Fail? ==>
              r == HttpFail(404, CAFE_MISSING_MESSAGE)
    ensures IsStaffRole(user.role) && slotId in db.slots && db.slots[slotId].isActive
            && CafeExists(db.cafes, db.slots[slotId].cafeId).Ok?
            && UserCanManageCafe(user, ManagedCafes(db.cafes, user.id), db.slots[slotId].cafeId).Fail? ==>
              r == HttpFail(403, NO_ACCESS_MESSAGE)
    ensures IsStaffRole(user.role) && slotId in db.slots && db.slots[slotId].isActive
            && CafeExists(db.cafes, db.slots[slotId].cafeId).Ok?
            && UserCanManageCafe(user, ManagedCafes(db.cafes, user.id), db.slots[slotId].cafeId).Ok?
            && payload.startTime.Some? != payload.endTime.Some? ==>
              r == HttpFail(400, BOTH_TIMES_MESSAGE)
    ensures var view := SlotPayloadView(None, payload.startTime, payload.endTime, payload.description);
            IsStaffRole(user.role) && slotId in db.slots && db.slots[slotId].isActive
            && CafeExists(db.cafes, db.slots[slotId].cafeId).Ok?
            && UserCanManageCafe(user, ManagedCafes(db.cafes, user.id), db.slots[slotId].cafeId).Ok?
            && Truthy(payload.startTime) && Truthy(payload.endTime)
            && noOverlap(db, view, Some(slotId)).Fail? ==>
              r == Fail(noOverlap(db, view, Some(slotId)).exc)
    ensures r.Ok? <==>
              IsStaffRole(user.role) && slotId in db.slots && db.slots[slotId].isActive
              && CafeExists(db.cafes, db.slots[slotId].cafeId).Ok?
              && UserCanManageCafe(user, ManagedCafes(db.cafes, user.id), db.slots[slotId].cafeId).Ok?
              && payload.startTime.Some? == payload.endTime.Some?
              && (Truthy(payload.startTime) && Truthy(payload.endTime) ==>
                    noOverlap(db, SlotPayloadView(None, payload.startTime, payload.endTime, payload.description),
                              Some(slotId)).Ok?)
    ensures r.Ok? ==> r.value == db.slots[slotId]
  {
    var _ :- Deps.RequireManagerOrAdmin(user);
    var slot :- SlotExists(db.slots, slotId);
    var _ :- SlotActive(slot);
    var cafe :- CafeExists(db.cafes, slot.cafeId);
    var _ :- UserCanManageCafe(user, ManagedCafes(db.cafes, user.id), slot.cafeId);
    if (payload.startTime.Some? || payload.endTime.Some?) && (payload.startTime.None? || payload.endTime.None?) then
      HttpFail(400, BOTH_TIMES_MESSAGE)
    else if Truthy(payload.startTime) && Truthy(payload.endTime) then
      var _ :- noOverlap(db, SlotPayloadView(None, payload.startTime, payload.endTime, payload.description),
                         Some(slotId));
      Ok(slot)
    else
      Ok(slot)
  }

  /** `CRUDBase.update` on a slot: every field the payload sets is assigned, the rest is kept. */
  function ApplySlotUpdate(slot: Slot, payload: TimeSlotUpdate): (r: Slot)
    ensures r.id == slot.id && r.cafeId == slot.cafeId
    ensures r.startTime == (if payload.startTime.Some? then payload.startTime.value else slot.startTime)
    ensures r.endTime == (if payload.endTime.Some? then payload.endTime.value else slot.endTime)
    ensures r.description == (if payload.description.Some? then payload.description.value else slot.description)
    ensures r.isActive == (if payload.isActive.Some? then payload.isActive.value else slot.isActive)
  {
    var s1 := if payload.startTime.Some? then slot.(startTime := payload.startTime.value) else slot;
    var s2 := if payload.endTime.Some? then s1.(endTime := payload.endTime.value) else s1;
    var s3 := if payload.description.Some? then s2.(description := payload.description.value) else s2;
    if payload.isActive.Some? then s3.(isActive := payload.isActive.value) else s3
  }

  /** An update that sets nothing leaves the slot as it was. */
  lemma EmptySlotUpdateIsIdentity(slot: Slot)
    ensures ApplySlotUpdate(slot, TimeSlotUpdate(None, None, None, None)) == slot
  {
  }

  /** `update_slot`: the checks above; then `is_active=False` deactivates the slot and applies
      nothing else, while any other payload is applied field by field. */
  method UpdateSlot(db: Db, noOverlap: OverlapCheck, slotId: int, payload: TimeSlotUpdate,
                    user: User) returns (r: Outcome<Slot>)
    requires db.Valid()
    modifies db`slots
    ensures db.Valid()
    ensures var check := UpdateSlotCheck(old(db.Snap()), noOverlap, slotId, payload, user);
            (check.Fail? ==> r == Fail(check.exc) && db.slots == old(db.slots))
            && (check.Ok? && payload.isActive == Some(false) ==>
                  r == Ok(check.value.(isActive := false)) && db.slots == old(db.slots)[slotId := r.value])
            && (check.Ok? && payload.isActive != Some(false) ==>
                  r == Ok(ApplySlotUpdate(check.value, payload)) && db.slots == old(db.slots)[slotId := r.value])
  {
    var check := UpdateSlotCheck(db.Snap(), noOverlap, slotId, payload, user);
    if check.Fail? {
      return Fail(check.exc);
    }
    var slot := check.value;
    var updated;
    if payload.isActive.Some? && payload.isActive.value == false {
      updated := slot.(isActive := false);
    } else {
      updated := ApplySlotUpdate(slot, payload);
    }
    db.slots := db.slots[slotId := updated];
    r := Ok(updated);
  }
}
