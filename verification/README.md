# Cafe booking service — a Dafny model of its decision logic and store operations

The service is a FastAPI backend for booking tables in cafes. Users (roles USER, MANAGER,
ADMIN) register and log in with an email or a phone; managers and administrators run cafes,
their tables, time slots, dishes and promotions ("actions"); users book tables for slots on a
date. Every entity is soft-deleted through an `is_active` flag.

This project models the part of the service that decides things:

- the request schemas and their validators (clock times, dates, positive numbers, stripped
  and length-bounded strings, blank-to-None normalisation);
- the guards of the endpoints and services and the ORDER in which they run (which error a
  request gets when several checks would fail), including role and ownership checks and the
  rule that inactive rows are hidden unless staff ask for them;
- booking conflict detection, with the lemma that the membership test it uses is the same as
  two cross-products of tables and slots sharing a cell;
- the store operations as state transitions of an in-memory database: the tables are maps from
  id to record held by a `Db` object that the write operations update in place, and the
  generic store of `crud/base.py` is a class over attribute maps whose partial update is the
  `setattr` loop of the source;
- the mapping of errors to the uniform `{code, message}` response body, and the idempotent
  seeding upsert of demo accounts.

Records are datatypes (module `Entities`); Python exceptions are values of `Common.Exc`, and an
operation that may raise returns a `Common.Outcome`. The current date is a parameter. Functions
the core calls but that are not part of this model (password hashing and checking, token
decoding, the slot overlap check, the booking ownership check, a cafe permission check, the
duplicate-cafe query, UUID parsing, the file system) are function parameters with no body
invented for them.

Modules follow the source files: `BookingValidators` is `api/validators/booking.py`,
`CrudBase` is `crud/base.py`, and so on; `Common` and `Entities` hold the shared vocabulary.

## Model

| member | source | states |
|---|---|---|
| `SchemaValidators.ValidateDateNotPast` | src/schemas/validators.py:4-8 | fails with the ValueError iff the date is before today; otherwise returns the date unchanged |
| `SchemaValidators.ValidatePositiveNumber` | src/schemas/validators.py:11-15 | fails iff the value is at most 0, with a message naming the field; otherwise the value unchanged |
| `SchemaValidators.ParseClock` | src/schemas/validators.py:22-25 | `strptime(s, '%H:%M')` succeeds iff the text splits into an hour text (0-23, one or two digits), a colon and a minute text; the value is below 24*60 |
| `SchemaValidators.TwoDigits` | src/schemas/validators.py:18-26 | the zero-padded two-digit text of 0..99 reads back as that number |
| `SchemaValidators.FormatClock` | src/schemas/validators.py:18-26 | the canonical "HH:MM" text of a clock time has the `^\d{2}:\d{2}$` shape and parses back to that time |
| `SchemaValidators.ParseFormatClock` | src/schemas/validators.py:18-26 | every clock time is read back from its canonical text |
| `SchemaValidators.FormatParseClock` | src/schemas/validators.py:18-26 | a text of the two-digit shape that strptime accepts is the canonical text of its value |
| `SchemaValidators.ValidateTimeFormat` | src/schemas/validators.py:18-26 | accepts exactly the texts strptime reads as hour:minute and returns them unchanged; otherwise the format ValueError |
| `SchemaValidators.TimeFormatAcceptsClock` | src/schemas/validators.py:18-26 | every hour 0..23 and minute 0..59, written canonically, is accepted |
| `SchemaValidators.ValidateTimeRange` | src/schemas/validators.py:29-37 | accepts iff both times parse and the end is strictly later, comparing parsed values; returns the pair unchanged |
| `SchemaValidators.EqualTimesRejected` | src/schemas/validators.py:33-36 | equal start and end are rejected |
| `SlotSchemas.TimeStr` | src/schemas/slots.py:27-35 | the stripped text is accepted iff it has the two-digits-colon-two-digits shape |
| `SlotSchemas.DescriptionStr` | src/schemas/slots.py:18-25 | the stripped description is accepted iff its length is within the bounds |
| `SlotSchemas.TimeField` | src/schemas/slots.py:45-50 | a time field passes iff its stripped text has the shape and strptime accepts it |
| `SlotSchemas.ValidateTimeSlotCreate` | src/schemas/slots.py:38-59 | a create payload validates iff both times pass, the description is within bounds and end > start; the result holds the stripped texts |
| `SlotSchemas.CreateValidationIdempotent` | src/schemas/slots.py:38-59 | validating an already validated create payload gives it back unchanged |
| `SlotSchemas.CreatedTimesCanonical` | src/schemas/slots.py:45-53 | the times of a validated payload are the canonical texts of their clock values |
| `SlotSchemas.OptionalField` | src/schemas/slots.py:72-77 | None passes unchanged; a value is checked and its error propagated |
| `SlotSchemas.ValidateTimeSlotUpdate` | src/schemas/slots.py:62-81 | each present time is checked, the description when present, and the range only when both times are present; absent fields stay None |
| `SlotSchemas.EmptyUpdateValid` | src/schemas/slots.py:62-81 | an update with neither time nor description always validates, whatever is_active says |
| `BookingSchemas.PositiveInt` | src/schemas/booking.py:45-48 | `PositiveInt` accepts exactly the values > 0, unchanged |
| `BookingSchemas.PositiveList` | src/schemas/booking.py:46-47 | a list of ids is accepted iff every element is positive |
| `BookingSchemas.NoteField` | src/schemas/booking.py:24-31 | a note is None or its stripped text within the bounds; the stripped text is kept |
| `BookingSchemas.StatusField` | src/schemas/booking.py:34-39 | the status is accepted iff it is ACTIVE=0, CANCELLED=1 or COMPLETED=2 |
| `BookingSchemas.GuestField` | src/schemas/booking.py:58-61 | the guest number is accepted iff positive |
| `BookingSchemas.ValidateBookingCreate` | src/schemas/booking.py:42-65 | a create payload validates iff every id and the guest number are positive, the note fits, the status is known and the date is not before today |
| `BookingSchemas.OptionalInt` | src/schemas/booking.py:101-109 | an absent optional number passes as None; a present one is checked |
| `BookingSchemas.OptionalList` | src/schemas/booking.py:72-73 | an absent id list passes; a present one must be all positive |
| `BookingSchemas.ValidateBookingUpdate` | src/schemas/booking.py:68-109 | each check applies only to a present field; the fields come back unchanged except the stripped note |
| `BookingSchemas.EmptyUpdateValid` | src/schemas/booking.py:71-78 | the all-None update validates whatever the date |
| `BookingSchemas.PastDateRejected` | src/schemas/booking.py:53-56 | a date before today is rejected on create and on update |
| `SlotValidators.CafeExists` | src/api/validators/slots.py:10-18 | returns the cafe iff it exists and is active; otherwise 404 |
| `SlotValidators.SlotExists` | src/api/validators/slots.py:21-29 | returns the slot iff it exists, inactive slots included; otherwise 404 |
| `SlotValidators.ManagedCafes` | src/api/validators/slots.py:37-38 | `user.managed_cafes` is exactly the set of cafes whose managers include the user |
| `SlotValidators.UserCanManageCafe` | src/api/validators/slots.py:32-44 | allowed iff the user is ADMIN, or a MANAGER of that cafe; any refusal is 403 |
| `SlotValidators.ManageMonotone` | src/api/validators/slots.py:37-39 | managing more cafes never turns an allowed decision into a refusal |
| `SlotValidators.PlainUserNeverManages` | src/api/validators/slots.py:41-44 | a role other than MANAGER and ADMIN is refused every cafe with 403 |
| `SlotValidators.SlotActive` | src/api/validators/slots.py:47-53 | fails with 403 iff the slot is inactive |
| `CrudSlots.GetByCafe` | src/crud/slots.py:12-23 | a slot is listed iff it belongs to the cafe and, when only active ones are asked for, is active |
| `CrudSlots.ActiveAmongAll` | src/crud/slots.py:12-23 | every slot of the active listing is in the full listing |
| `SlotEndpoints.ListSlots` | src/api/endpoints/slots.py:44-57 | 404 iff the cafe is missing or inactive; otherwise the cafe's slots, inactive ones only for an ADMIN or MANAGER who passed `show_all` |
| `SlotEndpoints.ListingHidesInactiveFromUsers` | src/api/endpoints/slots.py:52-56 | an anonymous caller or a plain user never sees an inactive slot |
| `SlotEndpoints.GetSlot` | src/api/endpoints/slots.py:98-104 | 404 for a missing slot, then 403 for an inactive one; otherwise the stored slot |
| `SlotEndpoints.CreateSlotCheck` | src/api/endpoints/slots.py:73-85 | in order, each failure pinned to its own error: 403 Forbidden first for a caller who is neither MANAGER nor ADMIN (the `require_manager_or_admin` dependency), then 400 for an empty start or end time, the AttributeError of the missing `cafe_id`, 404 for the cafe, 403 for permission, then the overlap check's error; Ok with the cafe id exactly when all pass |
| `SlotEndpoints.CreateSlot` | src/api/endpoints/slots.py:73-86 | a refused request writes nothing; an accepted one inserts one new active slot under a fresh id |
| `SlotEndpoints.UpdateSlotCheck` | src/api/endpoints/slots.py:119-138 | in order, each failure pinned to its own error: 403 Forbidden first for a caller who is neither MANAGER nor ADMIN (the `require_manager_or_admin` dependency), then 404 slot, 403 inactive slot, 404 cafe, 403 permission, 400 when exactly one time is given, then the overlap check's error (only when both times are given); Ok with the stored slot exactly when all pass |
| `SlotEndpoints.ApplySlotUpdate` | src/crud/base.py:90-101 | every field the payload sets is assigned, every other field and the id and cafe are kept |
| `SlotEndpoints.EmptySlotUpdateIsIdentity` | src/crud/base.py:97-101 | an update that sets nothing leaves the slot unchanged |
| `SlotEndpoints.UpdateSlot` | src/api/endpoints/slots.py:119-142 | a refused update writes nothing; `is_active=False` only deactivates the slot; any other payload is applied field by field; only that slot changes |
| `BookingValidators.BookingExists` | src/api/validators/booking.py:11-19 | returns the booking iff it exists with status ACTIVE; otherwise 404 |
| `BookingValidators.FinishedBookingIsMissing` | src/api/validators/booking.py:13-19 | a CANCELLED or COMPLETED booking gets exactly the answer of a missing one |
| `BookingValidators.ConflictingIds` | src/api/validators/booking.py:67-74 | the ids returned by the conflict query are exactly those of the stored bookings that conflict with the request |
| `BookingValidators.CheckBookingConflicts` | src/api/validators/booking.py:60-86 | 409 iff some ACTIVE booking of the cafe has a requested slot and a requested table; the message lists the de-duplicated slots and tables of the conflicting bookings |
| `BookingValidators.OtherCafesAndInactiveNeverConflict` | src/api/validators/booking.py:67-76 | bookings of other cafes, or not ACTIVE, never cause a conflict |
| `BookingValidators.CellsMember` | src/api/validators/booking.py:67-72 | a (table, slot) cell is covered iff its table and its slot are in the two sets |
| `BookingValidators.MembershipIffSharedCell` | src/api/validators/booking.py:67-72 | tables intersecting and slots intersecting is equivalent to the two cross-products sharing a cell |
| `BookingValidators.ConflictIffSharedCell` | src/api/validators/booking.py:67-76 | a booking conflicts iff it is an ACTIVE booking of the cafe sharing a (table, slot) cell with the request |
| `BookingValidators.ConflictIgnoresDate` | src/api/validators/booking.py:67-73 | changing a stored booking's date never changes the verdict or the message |
| `BookingValidators.CheckAllObjectsId` | src/api/validators/booking.py:22-57 | in order: 404 naming the cafe, 404 naming the first missing slot in list order, 404 naming the first missing table, and only then the conflict check |
| `BookingValidators.CheckAllObjectsIdPasses` | src/api/validators/booking.py:22-57 | passes iff the cafe, every slot and every table exist and no stored booking conflicts |
| `BookingValidators.CheckBookingDate` | src/api/validators/booking.py:89-95 | 400 iff the date is strictly before today |
| `CrudBooking.BookingAttr` | src/crud/booking.py:22-24 | `hasattr` holds exactly for the booking's columns, and `getattr` gives the column's value |
| `CrudBooking.GetMultiBooking` | src/crud/booking.py:14-26 | a booking is listed iff it is active or `show_all` is truthy, and its attribute equals every other keyword that is not None and names an attribute |
| `CrudBooking.ShowAllNeverFilters` | src/crud/booking.py:19-21 | without a truthy `show_all` only active bookings are listed, and `show_all` is never compared with an attribute |
| `CrudBooking.NoneKeywordIgnored` | src/crud/booking.py:22-24 | a keyword whose value is None does not filter |
| `CrudBooking.GetBookingCurrentUser` | src/crud/booking.py:28-41 | the caller's booking with that id when one exists, else none |
| `BookingEndpoints.BoolOrNone` | src/api/endpoints/booking.py:68-73 | the `show_all` filter value is truthy iff `show_all` is true |
| `BookingEndpoints.GetListBooking` | src/api/endpoints/booking.py:46-82 | a truthy `cafe_id` naming no active cafe gives 404; a plain user lists only their own active bookings; staff filter by `show_all`, `cafe_id` and `user_id` |
| `BookingEndpoints.OwnFilters` | src/api/endpoints/booking.py:62-67 | the plain user's filters select exactly their own bookings of the requested cafe |
| `BookingEndpoints.StaffFilters` | src/api/endpoints/booking.py:68-73 | staff filters pass `show_all`, `cafe_id` and `user_id` through unchanged |
| `BookingEndpoints.PlainUserListsOnlyOwn` | src/api/endpoints/booking.py:62-67 | a plain user's listing holds only their own active bookings and ignores the requested `user_id` and `show_all` |
| `BookingEndpoints.CreateBookingCheck` | src/api/endpoints/booking.py:92-99 | the past-date 400 comes before the existence and conflict checks |
| `BookingEndpoints.NewBooking` | src/api/endpoints/booking.py:100-104 | the stored booking's owner is the caller and every other field is the payload's |
| `BookingEndpoints.CreateBooking` | src/api/endpoints/booking.py:83-115 | a refused request writes nothing; an accepted one inserts exactly the new booking under a fresh id |
| `BookingEndpoints.GetBooking` | src/api/endpoints/booking.py:116-143 | a plain user gets their own booking or nothing; staff get any ACTIVE booking, otherwise 404 |
| `BookingEndpoints.UpdateGuard` | src/api/endpoints/booking.py:156-163 | a plain user gets exactly `check_current_user_booking`'s outcome; staff get 404 for a booking that is not ACTIVE, then 403 without the manage right, otherwise the stored ACTIVE booking |
| `BookingEndpoints.UpdateBookingCheck` | src/api/endpoints/booking.py:144-173 | the guard first (`UpdateGuard`); after it, a failing existence and conflict check on the stored cafe, slots, tables and date (excluding the booking itself) gives its error, and only then a failing status ban gives its error; Ok exactly when all three pass, with the guard's booking |
| `BookingEndpoints.PlainUserUpdatesOnlyAccepted` | src/api/endpoints/booking.py:155-157 | a plain user cannot update a booking the ownership check refuses |
| `BookingEndpoints.ApplyBookingUpdate` | src/crud/base.py:90-101 | every payload field the booking has as an attribute is assigned when set, the rest kept; `tables_id` and `slots_id` are not attributes of the booking, so its tables and slots never change; the id and the owner never change |
| `BookingEndpoints.EmptyBookingUpdateIsIdentity` | src/crud/base.py:97-101 | an update that sets nothing leaves the booking unchanged |
| `BookingEndpoints.UpdateBooking` | src/api/endpoints/booking.py:144-175 | a refused update writes nothing; otherwise only that booking changes, to the payload applied to it |
| `Deps.ParseIntText` | src/api/deps.py:30-38 | `int(s)` on blank text fails |
| `Deps.DecimalDigits` | src/api/deps.py:30-38 | the decimal text of a natural number is all digits and denotes it |
| `Deps.ParseUnsigned` | src/api/deps.py:30-38 | a non-empty string of digits reads back as the number it denotes |
| `Deps.ParseSigned` | src/api/deps.py:30-38 | a minus sign followed by digits reads back as the negated number |
| `Deps.ParseIntRoundTrip` | src/api/deps.py:30-38 | `int(str(n))` is n for every integer n |
| `Deps.IntOf` | src/api/deps.py:30-38 | a missing or null `sub` gives no id (TypeError); an integer claim gives itself |
| `Deps.GetCurrentUser` | src/api/deps.py:16-52 | 401 for an undecodable token or a non-integer `sub`, 401 for an unknown id, 403 for an inactive user, in that order; success returns an active stored user |
| `Deps.TextSubjectAuthenticates` | src/api/deps.py:30-52 | a token whose `sub` is the decimal text of an active user's id authenticates that user |
| `Deps.RequireManagerOrAdmin` | src/api/deps.py:55-64 | the same user iff the role is MANAGER or ADMIN; otherwise 403 |
| `CafeSchemas.EmptyStrToNone` | src/schemas/cafe.py:56-62 | a blank description string becomes None; anything else passes unchanged |
| `CafeSchemas.DescriptionField` | src/schemas/cafe.py:43-62 | the description is None iff absent or blank; otherwise its stripped, non-empty text |
| `CafeSchemas.BoundedStr` | src/schemas/cafe.py:17-41 | a stripped string field is accepted iff its length is within the bounds, and the stripped text is kept |
| `CafeSchemas.ManagerSet` | src/schemas/cafe.py:54 | `Set[int]`: absent stays absent, otherwise the set of the listed ids |
| `CafeSchemas.ValidateCafeCreate` | src/schemas/cafe.py:46-62 | a create payload validates iff name, address and phone fit their bounds; the result holds the stripped texts, the normalised description and the manager set |
| `CafeSchemas.OptionalBounded` | src/schemas/cafe.py:81-83 | an absent optional string passes; a present one is stripped and bounded |
| `CafeSchemas.ValidateCafeUpdate` | src/schemas/cafe.py:78-95 | each present field is checked; `description` and `managers_id` keep the difference between unset and explicit null |
| `CafeSchemas.BlankDescriptionIsNone` | src/schemas/cafe.py:58-62 | a blank description is None on create and an explicit null on update |
| `CafeSchemas.DuplicateManagersCollapse` | src/schemas/cafe.py:54 | repeating manager ids changes nothing, since they form a set |
| `CafeValidators.GetCafeOr404` | src/api/validators/cafe.py:10-19 | 400 INVALID_ID_FORMAT for an id <= 0, else 404 NOT_FOUND for a missing cafe, else the stored cafe |
| `CafeValidators.IdFormatBeforeNotFound` | src/api/validators/cafe.py:12-18 | for a non-positive id the answer is 400 whatever is stored |
| `CafeService.GetAllCafes` | src/api/cafe_service.py:18-35 | a cafe is listed iff it is active, or the caller is ADMIN or MANAGER and passed `show_all` |
| `CafeService.GetCafe` | src/api/cafe_service.py:38-54 | the lookup's error first; then 404 for an inactive cafe unless the caller is ADMIN or MANAGER; otherwise the cafe |
| `CafeService.AppointeeVerdict` | src/api/cafe_service.py:91-108 | INVALID_ROLE 400 for an appointee below MANAGER; FORBIDDEN 403 when a MANAGER appoints an ADMIN; otherwise accepted |
| `CafeService.AppointeesCheck` | src/api/cafe_service.py:91-108 | passes iff every appointee is accepted; a failure is the verdict of the first refused appointee in order |
| `CafeService.CreateCafeCheck` | src/api/cafe_service.py:67-108 | in order: CAFE_DUPLICATE 400, INVALID_MANAGER_ID 400 when some requested manager does not resolve, then the appointee rules; passes iff none applies |
| `CafeService.AppointmentRules` | src/api/cafe_service.py:99-108 | a MANAGER appointing an ADMIN is refused; an ADMIN appointing staff is accepted |
| `CafeService.CreateCafe` | src/api/cafe_service.py:57-118 | a refused request writes nothing; otherwise the new cafe with the resolved managers is stored under a fresh id |
| `CafeService.UpdateCafeCheck` | src/api/cafe_service.py:128-129 | the lookup's error, then the permission check; the stored cafe on success |
| `CafeService.UpdateCafe` | src/api/cafe_service.py:121-136 | a refused update writes nothing; otherwise the store's partial update of that cafe |
| `CrudCafe.Get` | src/crud/cafe.py:17-25 | the cafe with that id when it exists, active or not |
| `CrudCafe.GetMulti` | src/crud/cafe.py:27-35 | every stored cafe exactly once, active or not |
| `CrudCafe.ResolvedManagers` | src/crud/cafe.py:43-46 | the query returns exactly the requested ids that name users |
| `CrudCafe.ResolvedCountIffAllExist` | src/crud/cafe.py:48-49 | the count check passes iff every requested manager id names a user |
| `CrudCafe.NewCafe` | src/crud/cafe.py:39-40 | the new cafe carries the payload's fields, is active and has the given managers |
| `CrudCafe.Create` | src/crud/cafe.py:37-56 | a ValueError and no write when some requested manager is missing; otherwise the new cafe with those managers (none when the set is empty or absent) under a fresh id |
| `CrudCafe.SentValue` | src/crud/cafe.py:65-70 | a field that was sent has a value of that field's type |
| `CrudCafe.SetCafeField` | src/crud/cafe.py:71-73 | `setattr` changes that field only |
| `CrudCafe.UpdatedFields` | src/crud/cafe.py:65-73 | every simple field that was sent is assigned, every other field kept; the managers are not touched |
| `CrudCafe.CafeExtensionality` | src/crud/cafe.py:71-73 | two cafes agreeing on id, managers and every field are equal |
| `CrudCafe.AssignSimpleFields` | src/crud/cafe.py:71-73 | the `setattr` loop over the sent fields yields the cafe with exactly those fields replaced |
| `CrudCafe.UpdatedManagers` | src/crud/cafe.py:76-91 | unset keeps the managers; an empty or null list clears them; a non-empty one replaces them iff every id names a user, all or nothing |
| `CrudCafe.Update` | src/crud/cafe.py:58-96 | a ValueError and no write when the manager replacement fails; otherwise only that cafe changes, to its updated fields and managers |
| `CrudCafe.ManagersUpdateCases` | src/crud/cafe.py:76-79 | an unset field keeps the managers, and both `[]` and null clear them |
| `TableValidators.GetTableInCafeOr404` | src/api/validators/table.py:10-29 | 400 for an id <= 0 before any lookup; 404 for a missing table or one of another cafe; otherwise the stored table of that cafe |
| `TableValidators.OtherCafeLooksMissing` | src/api/validators/table.py:26-28 | a table of another cafe gets exactly the answer of a missing one |
| `TableService.GetAllTables` | src/api/table_service.py:18-46 | the cafe lookup's error first; then the cafe's tables, inactive ones only for ADMIN or MANAGER with `show_all` |
| `TableService.GetTable` | src/api/table_service.py:47-65 | the lookup's error first; an inactive table is 404 for a plain user and returned to staff |
| `TableService.TableVisibility` | src/api/table_service.py:31-36 | a plain user sees only active tables, all of which staff also see, and staff with `show_all` see every table of the cafe |
| `TableService.CreateTable` | src/api/table_service.py:66-82 | the cafe lookup's error and no write; otherwise a new active table under the path cafe and a fresh id |
| `TableService.UpdateTable` | src/api/table_service.py:83-98 | only a table of the path cafe is updated; otherwise the lookup's error and no write |
| `CrudTable.Get` | src/crud/table.py:52-64 | the table with that id when it exists |
| `CrudTable.TableAttr` | src/crud/table.py:45-47 | `hasattr` holds exactly for the table's columns, and `getattr` gives the column's value |
| `CrudTable.GetMulti` | src/crud/table.py:37-50 | a table is listed iff it equals every filter that names a column |
| `CrudTable.CafeFilter` | src/crud/table.py:45-47 | filtering by `cafe_id` lists exactly the cafe's tables, and an unknown keyword is ignored |
| `CrudTable.NewTable` | src/crud/table.py:27-30 | the new table has the payload's fields, the path cafe and is active |
| `CrudTable.Create` | src/crud/table.py:16-35 | one new table under a fresh id, nothing else changes |
| `CrudTable.SentValue` | src/crud/table.py:73-77 | a field that was sent has a value of that field's type |
| `CrudTable.SetTableField` | src/crud/table.py:75-77 | `setattr` changes that field only |
| `CrudTable.UpdatedTable` | src/crud/table.py:73-77 | every sent field is assigned, the rest kept; id and cafe are never changed |
| `CrudTable.EmptyTableUpdateIsIdentity` | src/crud/table.py:73-77 | an update that sends nothing leaves the table unchanged |
| `CrudTable.TableExtensionality` | src/crud/table.py:75-77 | two tables agreeing on id, cafe and every field are equal |
| `CrudTable.Update` | src/crud/table.py:66-83 | only that table changes, to the payload applied to it |
| `ActionValidators.GetActionOr404` | src/api/validators/actions.py:10-21 | 400 for an id <= 0; 404 for a missing or inactive action (the lookup hides inactive ones); otherwise the stored action |
| `ActionValidators.InactiveActionLooksMissing` | src/api/validators/actions.py:12 | an inactive action gets exactly the answer of a missing one |
| `ActionsService.GetAllActions` | src/api/actions_service.py:17-36 | every listed action is stored and active, whatever the role or `show_all` |
| `ActionsService.ListingIgnoresRole` | src/api/actions_service.py:23-29 | the listing is exactly the active actions for every caller |
| `ActionsService.GetAction` | src/api/actions_service.py:37-53 | the lookup's error first; the action is returned iff its id is positive, it exists and is active |
| `ActionsService.InactiveActionHiddenFromAll` | src/api/actions_service.py:43-49 | an inactive action is 404 for every caller, staff included |
| `ActionsService.CreateAction` | src/api/actions_service.py:54-69 | the store's ValueError becomes 400 with no write; otherwise one new action under a fresh id |
| `ActionsService.UpdateAction` | src/api/actions_service.py:70-84 | the lookup's error and no write; then the store's update, its ValueError as 400 with no write |
| `CrudActions.Get` | src/crud/actions.py:17-32 | the action when it exists and is active, or `show_all` was passed |
| `CrudActions.GetMulti` | src/crud/actions.py:34-47 | an action is listed iff it is active (or `show_all`) and linked to the requested cafe when one is given |
| `CrudActions.ResolveCafes` | src/crud/actions.py:57-64 | success gives the cafes named by the ids; failure is the ValueError |
| `CrudActions.ResolveOkIff` | src/crud/actions.py:57-64 | the count check passes iff the ids are distinct and all name cafes; the result is then exactly those cafes |
| `CrudActions.NewAction` | src/crud/actions.py:55-56 | the new action carries the payload's fields and the resolved cafes |
| `CrudActions.CreatedCafes` | src/crud/actions.py:57-64 | an absent or empty list links no cafe; a non-empty one is resolved all or nothing |
| `CrudActions.Create` | src/crud/actions.py:49-71 | the ValueError and no write when the cafes do not resolve; otherwise one new action under a fresh id |
| `CrudActions.SentValue` | src/crud/actions.py:80-84 | a field that was sent has a value of that field's type |
| `CrudActions.SetActionField` | src/crud/actions.py:82-84 | `setattr` changes that field only |
| `CrudActions.Patched` | src/crud/actions.py:80-84 | every simple field that was sent is assigned, the rest kept; id and cafes are not touched |
| `CrudActions.PatchLaws` | src/crud/actions.py:80-84 | the empty patch is the identity and applying a patch twice is applying it once |
| `CrudActions.ActionExtensionality` | src/crud/actions.py:82-84 | two actions agreeing on id, cafes and every field are equal |
| `CrudActions.AssignSimpleFields` | src/crud/actions.py:81-84 | the `setattr` loop over the sent fields yields exactly the patched action |
| `CrudActions.UpdatedCafes` | src/crud/actions.py:85-100 | unset keeps the cafes; an empty or null list clears them; a non-empty one is resolved all or nothing |
| `CrudActions.Update` | src/crud/actions.py:73-108 | the ValueError and no write when the cafes do not resolve; otherwise only that action changes, to the patched fields and the new cafes |
| `CrudAction.Matching` | src/crud/action.py:35-47 | an action matches iff it is active when `only_active` is true, its lower-cased description contains the lower-cased `q` when `q` is non-empty, and it is linked to `cafe_id` when that is non-zero |
| `CrudAction.GetMulti` | src/crud/action.py:24-62 | the total counts every match regardless of paging; the page is the slice `[offset, offset+limit)` of the id-ordered matches, the shorter tail when fewer remain, and empty past the end |
| `CrudAction.ListingOrderAndTotal` | src/crud/action.py:49-58 | the page is in ascending id order and the total does not depend on limit or offset |
| `CrudAction.FalsyFiltersIgnored` | src/crud/action.py:36-47 | `only_active` other than true, `cafe_id=0` and `q=""` filter nothing |
| `CrudAction.Create` | src/crud/action.py:64-82 | one new active action under a fresh id, linked to the requested cafes that exist |
| `CrudAction.CreateDropsUnknownCafes` | src/crud/action.py:74-79 | a requested cafe id is linked iff it names a cafe; unknown ids are dropped silently |
| `CrudAction.Update` | src/crud/action.py:84-112 | each non-None argument is assigned; a given cafe list replaces the links with the cafes that exist; only that action changes |
| `CrudAction.SoftDelete` | src/crud/action.py:114-117 | the action becomes inactive and nothing else changes |
| `ActionRouter.ToOut` | src/routers/action.py:15-24 | the response carries the action's id, fields and the ids of its cafes |
| `ActionRouter.OutRoundTrip` | src/routers/action.py:15-24 | the response shape and the stored action determine each other |
| `ActionRouter.ToOutAll` | src/routers/action.py:77 | the list response maps `to_out` over the actions in order |
| `ActionRouter.Listed` | src/routers/action.py:66-73 | exactly the stored actions the filters accept |
| `ActionRouter.ListActions` | src/routers/action.py:58-77 | the responses of the slice `[skip, skip+limit)` of the filtered id-ordered actions, the shorter tail when fewer remain, empty past the end; with `skip` 0 and every match fitting, every match is listed |
| `ActionRouter.ListFiltersAgainstStore` | src/routers/action.py:67-73 | the router's filters against the store's: `active=True` agrees with `only_active=True`, `active=False` lists only inactive actions, no `active` agrees with the store's default |
| `ActionRouter.CreateAction` | src/routers/action.py:28-54 | one new action under a fresh id with the payload's fields, linked to the requested cafes that exist |
| `ActionRouter.GetAction` | src/routers/action.py:81-90 | 404 iff the action is missing; inactive ones are returned |
| `ActionRouter.UpdateAction` | src/routers/action.py:94-125 | 404 and no write for a missing action; otherwise the sent fields are assigned and a given cafe list replaces the links with the cafes that exist |
| `ActionRouter.DeleteAction` | src/routers/action.py:129-138 | 404 and no write for a missing action; otherwise it becomes inactive and nothing else changes |
| `ApiExceptions.Body` | src/api/exceptions.py:16 | the error body has exactly the keys `code` and `message`, holding the given values |
| `ApiExceptions.Err` | src/api/exceptions.py:12-17 | `err` raises an HTTP error with the given status whose detail is the `{code, message}` body |
| `ApiExceptions.DefaultCode` | src/api/exceptions.py:38-48 | the fallback pair is `("ERROR", "Ошибка")` iff the status is not one of 400, 401, 403, 404, 422 |
| `ApiExceptions.HttpExcHandler` | src/api/exceptions.py:24-55 | the response keeps the status; a detail that already has `code` and `message` is passed through; otherwise the status's default code with the string detail, or the default message, as message |
| `ApiExceptions.ResponseAlwaysCoded` | src/api/exceptions.py:24-55 | every HTTP error response carries `code` and `message` |
| `ApiExceptions.ErrRoundTrip` | src/api/exceptions.py:12-36 | an error built by `err` comes out of the handler as exactly its status and `{code, message}` |
| `ApiExceptions.TextKeepsCode` | src/api/exceptions.py:48-55 | a string detail becomes the message and the status's default code is kept |
| `ApiExceptions.ValidationExcHandler` | src/api/exceptions.py:57-68 | a request validation error is always 422 VALIDATION_ERROR |
| `ApiExceptions.IntegrityExcHandler` | src/api/exceptions.py:70-87 | an integrity error is 400; USER_DUPLICATE iff the lower-cased text mentions "unique" or "duplicate", DB_CONSTRAINT_VIOLATION otherwise |
| `ApiExceptions.UpperCaseUniqueCounts` | src/api/exceptions.py:75-76 | "UNIQUE" in upper case is detected, because the text is lower-cased first |
| `DishValidators.CheckNameUnique` | src/api/validators/dishes.py:11-16 | 400 naming the dish iff some stored dish already has that name |
| `DishValidators.MissingCafes` | src/api/validators/dishes.py:27-28 | the missing ids are exactly the requested ids that name no cafe |
| `DishValidators.CheckCafeExists` | src/api/validators/dishes.py:19-31 | passes iff every requested id names a cafe, returning each found cafe once; otherwise 400 naming the set of missing ids |
| `DishValidators.RepeatedIdsAccepted` | src/api/validators/dishes.py:24-29 | repeating ids changes nothing, since the check compares sets |
| `DishValidators.CheckDishAccess` | src/api/validators/dishes.py:34-38 | the dish is returned iff it is active or the user's role is not USER; otherwise 404 |
| `DishValidators.StaffAlwaysSeesDish` | src/api/validators/dishes.py:36-37 | any role other than USER sees every dish |
| `DishService.Get` | src/api/dish_service.py:15-19 | the dish iff the store finds it; otherwise 404 NOT_FOUND naming the id |
| `DishService.UpdateGuard` | src/api/dish_service.py:27-33 | 404 for a missing dish, then 403 DISH_INACTIVE for an inactive one; otherwise the stored dish |
| `DishService.Update` | src/api/dish_service.py:27-36 | a guarded update: the guard's error, or the store's update of the stored dish |
| `DishService.RefusedUpdateIgnoresStore` | src/api/dish_service.py:29-33 | a missing or inactive dish is refused before the store is asked to write |
| `DishServiceValidators.CreateCheck` | src/api/validators/dish_service.py:25-28 | the count check passes iff the requested ids are distinct and all name cafes; otherwise 404 CAFE_NOT_FOUND |
| `DishServiceValidators.RepeatedCafeRefused` | src/api/validators/dish_service.py:27-28 | a repeated cafe id makes the count differ, so the dish is refused |
| `DishServiceValidators.Create` | src/api/validators/dish_service.py:23-41 | a refused request writes nothing; otherwise one new active dish linked to the requested cafes under a fresh id |
| `DishServiceValidators.Update` | src/api/validators/dish_service.py:43-54 | as written: the guards of `DishService.Update`, then a TypeError from the store call's unknown keyword |
| `DishServiceValidators.UpdateNeverSucceeds` | src/api/validators/dish_service.py:52 | as written, no update ever succeeds, while the same guarded update with the store's own keyword does |
| `CrudDish.ByNameIsPreorder` | src/crud/dish.py:66 | ordering by name is a total preorder |
| `CrudDish.Matching` | src/crud/dish.py:47-59 | a dish matches iff active when `only_active` is true, its lower-cased name contains the lower-cased `q` when non-empty, and linked to `cafe_id` when non-zero |
| `CrudDish.Ordered` | src/crud/dish.py:63-66 | the matches sorted by name, a permutation of the matching dishes |
| `CrudDish.GetMulti` | src/crud/dish.py:29-73 | the total counts every match regardless of paging; the page is the slice `[offset, offset+limit)` of the name-ordered matches, the shorter tail when fewer remain, and empty past the end |
| `CrudDish.TotalIgnoresPaging` | src/crud/dish.py:61-62 | the total does not depend on limit or offset and is at least the page length |
| `CrudDish.Create` | src/crud/dish.py:75-96 | one new active, available dish under a fresh id, linked to the requested cafes that exist |
| `CrudDish.Update` | src/crud/dish.py:98-129 | each non-None argument is assigned; a given cafe list replaces the links with the cafes that exist; only that dish changes |
| `CrudDish.SoftDelete` | src/crud/dish.py:131-134 | the dish becomes inactive and nothing else changes |
| `DishRepository.NewestFirstIsPreorder` | src/repositories/dish.py:43 | ordering by creation time, newest first, is a total preorder |
| `DishRepository.Ordered` | src/repositories/dish.py:40-63 | the matching dishes newest first, each once |
| `DishRepository.SortedKeepsNoDup` | src/repositories/dish.py:61-63 | sorting the distinct matching rows keeps them distinct |
| `DishRepository.List` | src/repositories/dish.py:21-67 | at most `limit` matching dishes, newest first, none twice: the slice `[offset, offset+limit)` of the ordered matches, the shorter tail when fewer remain, and empty past the end |
| `DishRepository.PageKeepsNoDup` | src/repositories/dish.py:65 | paging a list without repetition keeps it without repetition |
| `DishRepository.PriceBoundsInclusive` | src/repositories/dish.py:55-59 | both price bounds are inclusive |
| `DishRepository.Get` | src/repositories/dish.py:69-77 | the dish with that id when it exists |
| `DishRepository.LoadCafes` | src/repositories/dish.py:155-165 | no ids give no cafes; otherwise exactly the requested cafes that exist, missing ids ignored |
| `DishRepository.Create` | src/repositories/dish.py:80-110 | one new dish under a fresh id with the given fields, linked to the loaded cafes |
| `DishRepository.Updated` | src/repositories/dish.py:126-140 | each non-None argument is assigned; given cafe ids replace the set with the loaded cafes |
| `DishRepository.UpdateLaws` | src/repositories/dish.py:113-144 | the empty update is the identity and applying an update twice is applying it once |
| `DishRepository.Update` | src/repositories/dish.py:113-144 | only that dish changes, to the update applied to it |
| `DishRepository.SoftDelete` | src/repositories/dish.py:147-152 | the dish becomes inactive and nothing else changes |
| `CrudDishes.GetDishes` | src/crud/dishes.py:19-38 | a dish is listed iff it is active when `only_active` is truthy, and its own `cafe_id` equals the requested one when given |
| `CrudDishes.ActiveListingIsSubset` | src/crud/dishes.py:33-34 | a falsy `only_active` filters nothing, and the active listing holds only active dishes of the full one |
| `CrudDishes.NewDish` | src/crud/dishes.py:48-49 | the new dish carries the payload's fields and the given cafes |
| `CrudDishes.CafesIdIgnored` | src/crud/dishes.py:48 | the payload's `cafes_id` plays no part in the new dish |
| `CrudDishes.CreateDish` | src/crud/dishes.py:40-53 | one new dish under a fresh id, nothing else changes |
| `CrudDishes.DishAttr` | src/crud/dishes.py:69 | `hasattr` holds exactly for the dish's attribute names |
| `CrudDishes.SetDishField` | src/crud/dishes.py:69-70 | `setattr` changes that field only |
| `CrudDishes.ItemsFitPrefix` | src/crud/dishes.py:68-70 | a prefix of well-typed sent fields is well typed |
| `CrudDishes.SentFor` | src/crud/dishes.py:68-70 | the value a field ends up with is the last sent value for it, none iff it was not sent |
| `CrudDishes.Assigned` | src/crud/dishes.py:68-70 | every sent field the dish has is assigned its last sent value, every other field kept |
| `CrudDishes.DishExtensionality` | src/crud/dishes.py:68-70 | two dishes agreeing on id, creation time, cafes and every field are equal |
| `CrudDishes.UnknownNamesIgnored` | src/crud/dishes.py:69 | sent names the dish has no attribute for change nothing |
| `CrudDishes.UpdatedCafes` | src/crud/dishes.py:64-67 | KeyError when `cafes_id` was not sent; a truthy list goes through the cafe-existence check; a falsy one keeps the cafes |
| `CrudDishes.UpdateDish` | src/crud/dishes.py:55-75 | the cafe step's error and no write; otherwise only that dish changes, to the new cafes and the sent fields assigned |
| `AuthValidators.AuthenticateUser` | src/api/validators/auth.py:9-41 | the login is stripped; 401 for an unknown login and for a wrong password alike, then 403 for an inactive account; success returns the active stored user holding that login |
| `AuthValidators.UnknownLoginLooksLikeBadPassword` | src/api/validators/auth.py:24-33 | an unknown login and a known login with a wrong password give the very same response |
| `AuthValidators.LoginIsStripped` | src/api/validators/auth.py:15 | surrounding whitespace in the login never changes the outcome |
| `UserSchemas.EmptyToNone` | src/schemas/user.py:48-54 | absent or blank contacts become None; any other is stripped and non-empty |
| `UserSchemas.EmptyToNoneIdempotent` | src/schemas/user.py:95-101 | normalising a normalised contact changes nothing |
| `UserSchemas.Bounded` | src/schemas/user.py:21-28 | a field passes exactly when it is absent or within its maximum length, and is kept as is |
| `UserSchemas.ValidateUserCreate` | src/schemas/user.py:39-54 | accepted exactly when the stripped username and the normalised contacts fit their limits; the result carries those normalised values |
| `UserSchemas.ValidateUserUpdate` | src/schemas/user.py:85-101 | accepted exactly when every sent field fits its limit after normalisation; role and password pass through |
| `UserSchemas.SameNormalizationOnCreateAndUpdate` | src/schemas/user.py:48-54 | registration and update normalise the same contact strings to the same values |
| `AppUserSchemas.NoBlank` | src/app/users/schemas.py:33-38 | a blank string is a ValueError; anything else passes unchanged |
| `AppUserSchemas.ValidateUserCreate` | src/app/users/schemas.py:22-45 | accepted exactly when no contact is blank and an email or phone is truthy |
| `AppUserSchemas.ContactRule` | src/app/users/schemas.py:41-45 | once blanks are excluded, registration needs exactly an email or a phone to be present |
| `AppUserSchemas.TextField` | src/app/users/schemas.py:95-114 | a sent null or blank string is refused, null with its own message; an unsent field stays unset |
| `AppUserSchemas.ValidateUserUpdate` | src/app/users/schemas.py:74-114 | accepted exactly when no field is sent as null and no text field as blank; the result holds the sent values |
| `AppUserSchemas.ExplicitNullRejected` | src/app/users/schemas.py:95-99 | an explicit null in any field, role and password included, refuses the update |
| `UserServices.SentData` | src/services/users.py:20 | the update's dump holds exactly the fields sent with a value |
| `UserServices.Listed` | src/services/users.py:31-33 | a listed field present in the data takes its value, every other field is kept |
| `UserServices.ListedEveryField` | src/services/users.py:31-33 | when every field is listed, each field in the data is assigned |
| `UserServices.UserExtensionality` | src/services/users.py:18-33 | two users agreeing on id, password hash and every mutable field are equal |
| `UserServices.AssignListed` | src/services/users.py:31-33 | the setattr loop over the mutable fields yields `Listed` |
| `UserServices.UserUpdated` | src/services/users.py:18-33 | each sent field is assigned, a sent password is replaced by its hash, and id and activity never change |
| `UserServices.ApplyUserUpdate` | src/services/users.py:18-33 | the password step then the loop produce `UserUpdated` |
| `UserServices.EmptyUpdateKeepsUser` | src/services/users.py:18-33 | an update that sends nothing leaves the user unchanged |
| `UserServices.UpdateIdempotent` | src/services/users.py:18-33 | without a password, applying the same update twice equals applying it once |
| `AppUserServices.SentData` | src/app/services/users.py:19 | the dump holds exactly the fields sent with a value, activity included |
| `AppUserServices.UserUpdated` | src/app/services/users.py:17-24 | the update of the other service, plus a sent activity flag |
| `AppUserServices.LoopExtendsNewer` | src/app/services/users.py:22-24 | the loop over the six mutable fields gives the other service's result plus the activity flag |
| `AppUserServices.ApplyUserUpdate` | src/app/services/users.py:17-24 | the password step then the loop produce `UserUpdated` |
| `AppUserServices.AgreesWithoutIsActive` | src/app/services/users.py:7-24 | the two services agree exactly when no activity flag is sent or it equals the stored one |
| `UserValidators.GetUserOr404` | src/api/validators/users.py:8-16 | the stored user, or 404 exactly when the id is unknown |
| `UserValidators.EnsureContactPresentOnCreate` | src/api/validators/users.py:19-25 | passes exactly when the email or the phone is truthy, else 400 |
| `UserValidators.ContactAfterNormalization` | src/api/validators/users.py:19-25 | after the schema's normalisation the check passes exactly when a non-blank email or phone was sent |
| `UserValidators.EnsureUserActive` | src/api/validators/users.py:28-34 | passes exactly for an active user, else 403 |
| `CrudUsers.ListAll` | src/crud/users.py:18-28 | exactly the stored users, restricted to active ones on request |
| `CrudUsers.ListAllOrdered` | src/crud/users.py:24 | the listing ascends by id |
| `CrudUsers.CreateWithHash` | src/crud/users.py:30-51 | a fresh id; an active USER with the payload's fields and the password's hash; nothing else changes |
| `CrudUsers.UpdateWithLogic` | src/crud/users.py:53-67 | the stored user becomes `UserUpdated` of itself and nothing else changes |
| `CrudUsers.ListingAfterWrites` | src/crud/users.py:18-67 | a registered user appears in the active listing and an update never removes it |
| `UserEndpoints.ListUsers` | src/api/endpoints/users.py:22-29 | staff only, else 403; every user, active or not |
| `UserEndpoints.CreateUser` | src/api/endpoints/users.py:37-56 | 400 and no write without an email or phone; otherwise a new active USER under a fresh id |
| `UserEndpoints.PatchMe` | src/api/endpoints/users.py:67-84 | a sent role is 403 with no write; otherwise the caller is updated, keeping role, activity and id |
| `UserEndpoints.GetUserById` | src/api/endpoints/users.py:92-100 | 403 for a non-staff caller, then 404 for an unknown id, then 403 for an inactive user; succeeds exactly otherwise |
| `UserEndpoints.PatchUserById` | src/api/endpoints/users.py:108-121 | the lookup's error with no write; otherwise only that user changes, to its update |
| `UserEndpoints.StaffMaySetAnyRole` | src/api/endpoints/users.py:103-121 | a manager may look up any active user and set any role on it |
| `DbSeed.SeedUser` | src/services/db_seed.py:63-74 | a login with '@' becomes the email, any other the phone; the user can be found by that login |
| `DbSeed.Ensured` | src/services/db_seed.py:25-82 | afterwards the login finds the returned user, which has the requested role and activity; an existing user changes only in those two fields, otherwise a new one is added |
| `DbSeed.EnsureIdempotent` | src/services/db_seed.py:25-82 | running the upsert twice equals running it once |
| `DbSeed.EnsureUser` | src/services/db_seed.py:25-82 | the new users and result are `Ensured`; the session writes exactly when the users change |
| `MediaValidators.MediaAllowedContentType` | src/api/validators/media.py:7-17 | passes exactly for image/jpeg, image/png and image/jpg, else 400 |
| `MediaValidators.CheckLenFile` | src/api/validators/media.py:20-29 | the contents exactly when they are at most 5 MiB, else 400 |
| `MediaValidators.SizeLimitInclusive` | src/api/validators/media.py:24 | exactly 5 MiB passes and one byte more is refused |
| `MediaValidators.CheckMediaId` | src/api/validators/media.py:32-42 | the id exactly when it parses as a UUID, else 422 |
| `MediaValidators.MediaExist` | src/api/validators/media.py:45-53 | the path exactly when the file exists, else 404 |
| `CrudBase.FieldWords` | src/crud/base.py:19 | one `key=value` word per audit field, in order |
| `CrudBase.JoinSpaceEmpty` | src/crud/base.py:19-21 | joining non-empty words is empty exactly when there are none |
| `CrudBase.AuditBodyAsWritten` | src/crud/base.py:15-22 | with no request id the body is the joined fields; with one and no fields it is the literal `req_id={rid}` |
| `CrudBase.AsWrittenDropsRequestId` | src/crud/base.py:21 | with no fields, the body as written is the same for every request id and differs from the intended one |
| `CrudBase.AuditBody` | src/crud/base.py:15-22 | with a request id the body ends in `req_id=` and that id, after the fields when there are any |
| `CrudBase.BodiesAgreeWithFields` | src/crud/base.py:21 | with at least one field, the body as written and the intended body agree |
| `CrudBase.ResourceName` | src/crud/base.py:25-27 | the table name when the model has one, else the class name lowercased |
| `CrudBase.CollectFkFields` | src/crud/base.py:30-38 | `id` first, then exactly the public attributes ending in `_id`, in order |
| `CrudBase.Assigned` | src/crud/base.py:97-101 | each existing attribute takes its last sent value, every other is kept, and no attribute is added |
| `CrudBase.AssignedIdempotent` | src/crud/base.py:97-101 | assigning the same data twice equals assigning it once |
| `CrudBase.Deactivated` | src/crud/base.py:114-125 | AttributeError exactly when the row has no `is_active`; otherwise only `is_active` changes, to false |
| `CrudBase.DeactivateIdempotent` | src/crud/base.py:114-125 | deactivating a deactivated row changes nothing |
| `CrudBase.ModelTable.constructor` | src/crud/base.py:44-46 | an empty table for the given model |
| `CrudBase.ModelTable.Get` | src/crud/base.py:48-54 | the row under the id, or None exactly when there is none |
| `CrudBase.ModelTable.GetMulti` | src/crud/base.py:56-66 | exactly the stored rows, restricted to active ones when requested and the model has `is_active` |
| `CrudBase.ModelTable.NewRow` | src/crud/base.py:75-78 | the given values, the column defaults elsewhere, under the given id |
| `CrudBase.ModelTable.Create` | src/crud/base.py:68-88 | `user_id` added when given; a TypeError and no write for an unknown column; otherwise a new row under a fresh id |
| `CrudBase.ModelTable.Update` | src/crud/base.py:90-112 | the row becomes `Assigned` of itself and nothing else changes |
| `CrudBase.ModelTable.Deactivate` | src/crud/base.py:114-135 | the row becomes `Deactivated` of itself, and nothing changes on failure |
| `Entities.SetField` | src/crud/base.py:101 | the set field takes the value and every other field is kept |
| `Entities.CafesAmong` | src/crud/actions.py:57-64 | the requested ids that name a cafe, ascending and without repeats |
| `Entities.FoundCountIff` | src/crud/actions.py:57-64 | as many cafes are found as ids were sent exactly when the ids are distinct and all exist |
| `Entities.LoginKey` | src/api/validators/auth.py:17-22 | the smallest id whose email or phone equals the login, or None exactly when there is none |
| `Entities.Db.NewId` | src/crud/base.py:78-81 | a positive id unused in every table, and the counter advances |

## Left out

- HTTP wiring: routers, `Depends`, response models, the thin delegating endpoint files and the response caching decorator. Only the decisions these endpoints make are modelled.
- Functions called by the core whose definitions are not part of this model are function parameters with no body given to them. These are `validate_no_time_overlap`, `ban_change_status`, `check_all_objects`, `check_current_user_booking`, `admin_or_manager_check`, `check_cafe_permissions`, `get_by_name_and_address`, `hash_password`, `verify_password`, `decode_token`, the UUID parse and `os.path.exists`. Several of these are defined nowhere in the repository; the lines below name them and say how the model reads their callers.
- Password hashing is a deterministic function parameter. bcrypt's random salt is not modelled, so two hashes of one password are equal here.
- The current date, the creation time of new rows and the request id are parameters. Clocks and context variables are not modelled.
- Logging and the audit logger's output are not modelled. `CrudBase.AuditBody` states the text of the audit line but not its emission, including the id and role that `create_with_hash` logs.
- The database is one in-memory object with one map per table and one id counter shared by all tables. Transactions, commits, refreshes and concurrent requests are not modelled, and one request runs at a time. The race between the conflict check and the booking insert is therefore outside the model.
- Queries without ORDER BY return rows in ascending id order in this model. `.limit(1)` without ORDER BY (`Entities.LoginKey`, used by login and by the seeding upsert) picks the smallest matching id.
- Uniqueness constraints of the database (e.g. on e-mail or phone) are not modelled. Integrity errors appear only through the error-response mapping of `ApiExceptions`.
- Explicit null on a NOT NULL column in a partial update is read as "not sent". In the source, `model_dump(exclude_unset=True)` keeps the null, the setattr loop writes it (src/crud/base.py:97-101, src/crud/cafe.py:71-73), and the commit fails with an IntegrityError that becomes 400 `DB_CONSTRAINT_VIOLATION` with nothing written. The model instead applies the other sent fields and succeeds, e.g. for a cafe update `{"name": null, "address": "x"}`. This affects the members on the next six lines.
- CafeSchemas.ValidateCafeUpdate: folds an explicit null for name, address or phone into "not sent" (see the line above).
- CrudCafe.UpdatedFields: never writes null into name, address or phone, so the IntegrityError path of the commit is not modelled.
- SlotSchemas.ValidateTimeSlotUpdate: folds an explicit null for start_time, end_time or description into "not sent".
- CrudTable.UpdatedTable: folds an explicit null for description, seat_number or is_active into "not sent".
- BookingSchemas.ValidateBookingUpdate: folds an explicit null for guest_number, cafe_id and the other NOT NULL fields into "not sent".
- CrudActions.Patched: folds an explicit null description into "not sent".
- SQL `LIKE`/`ILIKE` is a plain substring test, so `%` and `_` in a query are ordinary characters. Lower-casing covers ASCII and the basic Cyrillic letters only. String ordering is code-point order rather than the database collation.
- Pydantic reports every failing field of a payload; the model reports the first in declaration order. Types are not coerced (an int field holds an int). The e-mail format check of `EmailStr` is not modelled.
- Validation limits in `core/constants.py` (`USERNAME_MAX`, `EMAIL_MAX`, `PHONE_MAX`, `TG_ID_MAX`, cafe name and address limits) are parameters, because that file is not part of this model. `TIME_LENGTH` is taken as 5, the length of `HH:MM`.
- UserServices.ApplyUserUpdate: the `int(role)` coercion at src/services/users.py:25-29 is not modelled. A validated role is already an `IntEnum` member, so the coercion keeps its value.
- src/api/endpoints/users.py imports `apply_user_update` from `api.validators.users`, which does not define it. The model uses the function from src/services/users.py.
- src/app/services/users.py takes an update schema from app/schemas/user.py, which is not part of this model. `AppUserServices` models that schema as the user update of src/schemas/user.py plus an optional `is_active`.
- src/api/endpoints/booking.py:14-23 imports `cafe_exists`, `user_can_manage_cafe`, `check_all_objects`, `check_current_user_booking`, `admin_or_manager_check` and `ban_change_status` from `api.validators.booking`, which defines none of them, and line 163 calls `user_can_manage_cafe` with three arguments. `BookingEndpoints` reads `cafe_exists` and `user_can_manage_cafe` as `SlotValidators.CafeExists` and `SlotValidators.UserCanManageCafe`; the other four are function parameters.
- CafeService.CreateCafeCheck: src/api/cafe_service.py:67 and src/services/db_seed.py:114, 132 and 149 call `cafe_crud.get_by_name_and_address`, which neither `CRUDCafe` nor `CRUDBase` defines, so these calls would raise AttributeError. The model reads the call as a duplicate lookup and leaves it as an abstract parameter.
- CafeService.UpdateCafeCheck: src/api/cafe_service.py:7 imports `check_cafe_permissions` from `api.validators.cafe`, which does not define it, so the module would fail to import. The model leaves the permission check as an abstract parameter.
- BookingEndpoints.ApplyBookingUpdate: src/crud/base.py:100 assigns a field only when the booking has an attribute of that name; the booking (src/models/booking.py:16-44) has `tables` and `slots` but no `tables_id` or `slots_id`, so a PATCH that sends new table or slot lists leaves the booking's links as they were. The model follows that reading; it does not model the links being replaced.
- SlotEndpoints.CreateSlotCheck: src/api/endpoints/slots.py:13-19 imports `validate_no_time_overlap` from `api.validators.slots`, which does not define it. The model leaves the overlap check as an abstract parameter; the same holds for `SlotEndpoints.UpdateSlotCheck`.
- BookingEndpoints.NewBooking: src/api/endpoints/booking.py:100-104 calls `booking_crud.create_booking`, which is defined nowhere. The model reads it as `CRUDBase.create` with `user_id` set: the caller owns the booking, it is active, and the other fields come from the payload.
- CrudActions.Create: src/crud/actions.py:55-62 reads `cafes_id`, while the `ActionCreate` it imports (src/schemas/action.py:15-18) declares `cafe_ids`. As written, `cafe_ids` is not excluded from the dump, so `self.model(**obj_in_data)` raises TypeError on every create. The model reads the field as the cafe list, as `CrudActions.CreatedCafes` does.
- CrudActions.Update: src/crud/actions.py:81-86 tests `'cafes_id' in update_data`, while `ActionUpdate` (src/schemas/action.py:21-27) sends `cafe_ids`. As written, the cafes are never changed and `cafe_ids` reaches the setattr loop. The model reads the field as the cafe list, as `CrudActions.UpdatedCafes` does.
- ActionsService.GetAction: src/api/actions_service.py:9 imports `ActionInfo` from `schemas.action`, which does not define it, so the module would fail to import. The model returns the stored action itself for every member of `ActionsService`.
- DishServiceValidators.Create: src/api/validators/dish_service.py:25-33 reads `dish_in.cafes_id` and `dish_in.photo_id`, while `DishCreate` (src/schemas/dish.py) declares `cafe_ids` and `photo`. The model reads them as the payload's cafe list and photo.
- DishValidators.CheckCafeExists: the 400 message prints the missing ids in ascending order. CPython prints a set in hash-table order, so the source does not promise this text; the model normalises it.
- CrudBooking.GetBookingCurrentUser: src/crud/booking.py:34 filters on `_booking.booking_id`, a column the booking model does not declare; the model reads it as the primary key `id`.
- BookingValidators.CheckBookingConflicts: src/api/validators/booking.py:69-70 and 77-78 use `slots_id` and `tables_id` as if they were scalar columns, while the booking model has the relationships `slots` and `tables`, and a set of lists would be unhashable. The model reads the query as "shares a slot and shares a table" and the message as the sorted union of the conflicting bookings' slots and tables; both are interpretations of code that would not run as written. The same reading applies to `booking.slots_id` and `booking.tables_id` at src/api/endpoints/booking.py:164-165.
- `Common.IsSpace` and `Common.Strip` cover ASCII whitespace only. Python's `str.strip()` and pydantic's `strip_whitespace` also remove Unicode whitespace such as U+00A0.
- `Common.IsDigit`, `SchemaValidators.ParseClock` and `Deps.ParseIntText` accept the ASCII digits only. Python's `\d`, `strptime` and `int()` also accept other Unicode decimal digits, and `int()` accepts underscores between digits.
- `bad_request` and `not_found`, imported from `api.exceptions` but not defined there, are modelled as HTTP errors 400 and 404 carrying the given message.
- The ORM model files disagree with the code that uses them; for example, the base column is `active` while most of the code reads `is_active`. Each module follows the attribute names its own source file uses.
- `create_slot` reads `cafe_id` from a payload schema that declares no such field. The model gives this attribute as an option, and its absence is the AttributeError the source would raise.
- `CrudBase.ModelTable` models `CRUDBase` over untyped attribute maps; `hasattr` is membership in the model's column set. An `id` sent in a create payload is replaced by the fresh id, and the row is stored under that id, where src/crud/base.py:74-77 would insert it with the sent id. An `id` sent in an update is assigned to the row's `id` attribute but does not move the row to another key.
- `CrudBase.CollectFkFields` follows the order of `vars()`, taken as the order of the given attribute list. SQLAlchemy's internal `_sa_instance_state` is covered by the underscore rule.
- WWW-Authenticate response headers are not modelled; only status and detail are.
- The seeding driver `seed_database` is left out (engine setup and printing); its cafes and tables are created through operations modelled elsewhere.
- Floating point is not used: prices are integers (exact decimals).

## Findings

| source | as written | input that shows it | evidently intended | confidence | as-written member | corrected member |
|---|---|---|---|---|---|---|
| src/api/validators/dish_service.py:52 | the update calls the store with the keyword `obj_current=`, which `CRUDBase.update` does not accept, so every update that passes the guards raises TypeError | any existing active dish and any payload | pass the dish as `db_obj=` so that the update is applied | high; not executed | `DishServiceValidators.UpdateNeverSucceeds` | `DishService.Update` |
| src/crud/base.py:21 | the no-fields branch lacks the `f` prefix, so the audit line holds the literal `req_id={rid}` | no fields and request id "abc" | `req_id=abc` | high that the text is wrong; low impact, since no shown caller passes zero fields; not executed | `CrudBase.AsWrittenDropsRequestId` | `CrudBase.AuditBody` |
