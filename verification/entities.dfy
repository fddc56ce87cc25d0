/** The persistent records of the booking service and the database that holds them.
    Each table is a map from primary key to record; the database object is updated in place. */
module Entities {
  import opened Common

  // User roles (UserRole: USER = 0, MANAGER = 1, ADMIN = 2).
  const ROLE_USER := 0
  const ROLE_MANAGER := 1
  const ROLE_ADMIN := 2

  // Booking statuses (BookingStatus: ACTIVE = 0, CANCELLED = 1, COMPLETED = 2).
  const STATUS_ACTIVE := 0
  const STATUS_CANCELLED := 1
  const STATUS_COMPLETED := 2

  /** `user.role in (ADMIN, MANAGER)`. */
  predicate IsStaffRole(role: int) {
    role == ROLE_ADMIN || role == ROLE_MANAGER
  }

  datatype User = User(
    id: int,
    username: string,
    email: Option<string>,
    phone: Option<string>,
    tgId: Option<string>,
    role: int,
    isActive: bool,
    passwordHash: string)

  /** A cafe; `managers` is the set of user ids of the many-to-many managers link. */
  datatype Cafe = Cafe(
    id: int,
    name: string,
    address: string,
    phone: string,
    description: Option<string>,
    photoId: Option<string>,
    isActive: bool,
    managers: set<int>)

  datatype Table = Table(
    id: int,
    cafeId: int,
    description: string,
    seatNumber: int,
    isActive: bool)

  /** A time slot of a cafe; times are "HH:MM" strings. */
  datatype Slot = Slot(
    id: int,
    cafeId: int,
    startTime: string,
    endTime: string,
    description: string,
    isActive: bool)

  /** A booking; `tables` and `slots` are the ids of its many-to-many links. Dates are day numbers. */
  datatype Booking = Booking(
    id: int,
    userId: int,
    cafeId: int,
    guestNumber: int,
    note: Option<string>,
    status: int,
    bookingDate: int,
    tables: set<int>,
    slots: set<int>,
    isActive: bool)

  /** A promotion; `cafes` lists the linked cafe ids in link order. */
  datatype Action = Action(
    id: int,
    description: string,
    photoId: Option<string>,
    isActive: bool,
    cafes: seq<int>)

  /** A dish; prices are whole numbers; `createdAt` is a timestamp used only for ordering. */
  datatype Dish = Dish(
    id: int,
    name: string,
    description: Option<string>,
    price: int,
    photoId: Option<string>,
    isActive: bool,
    isAvailable: bool,
    createdAt: int,
    cafes: seq<int>,
    cafeId: Option<int>)

  /** The contents of every table at one moment. */
  datatype Snapshot = Snapshot(
    users: map<int, User>,
    cafes: map<int, Cafe>,
    tables: map<int, Table>,
    slots: map<int, Slot>,
    bookings: map<int, Booking>,
    actions: map<int, Action>,
    dishes: map<int, Dish>)

  // ------------------------------------------------ user attributes by name

  /** The user attributes an update may assign by name. */
  datatype UserField = Username | Email | Phone | TgId | Role | IsActive

  datatype FieldValue = FText(text: Option<string>) | FInt(n: int) | FFlag(flag: bool)

  /** `getattr(user, field)`. */
  function GetField(u: User, f: UserField): FieldValue {
    match f
    case Username => FText(Some(u.username))
    case Email => FText(u.email)
    case Phone => FText(u.phone)
    case TgId => FText(u.tgId)
    case Role => FInt(u.role)
    case IsActive => FFlag(u.isActive)
  }

  /** The value kind each field holds. */
  predicate Fits(f: UserField, v: FieldValue) {
    match f
    case Username => v.FText? && v.text.Some?
    case Email | Phone | TgId => v.FText?
    case Role => v.FInt?
    case IsActive => v.FFlag?
  }

  /** `setattr(user, field, value)` for a value of the field's kind. */
  function SetField(u: User, f: UserField, v: FieldValue): (r: User)
    requires Fits(f, v)
    ensures GetField(r, f) == v
    ensures forall g :: g != f ==> GetField(r, g) == GetField(u, g)
    ensures r.id == u.id && r.passwordHash == u.passwordHash
  {
    match f
    case Username => u.(username := v.text.value)
    case Email => u.(email := v.text)
    case Phone => u.(phone := v.text)
    case TgId => u.(tgId := v.text)
    case Role => u.(role := v.n)
    case IsActive => u.(isActive := v.flag)
  }

  // ------------------------------------------------------------ cafe links

  /** The cafe ids `select(Cafe).where(Cafe.id.in_(ids))` finds: each stored cafe once, however
      often the list names it; unknown ids find nothing. */
  function FoundCafes(cafes: map<int, Cafe>, ids: seq<int>): (r: set<int>)
    ensures forall c :: c in r <==> c in ids && c in cafes
  {
    ToSet(ids) * cafes.Keys
  }

  /** The found cafes as a list, in id order. */
  function CafesAmong(cafes: map<int, Cafe>, ids: seq<int>): (r: seq<int>)
    ensures StrictlyAscending(r)
    ensures forall c :: c in r <==> c in ids && c in cafes
    ensures |r| == |FoundCafes(cafes, ids)|
  {
    SortedKeys(FoundCafes(cafes, ids))
  }

  /** `len(found) == len(ids)` holds exactly when every id names a stored cafe and no id is
      repeated: a repeated id fails the comparison even when it exists. */
  lemma FoundCountIff(cafes: map<int, Cafe>, ids: seq<int>)
    ensures |FoundCafes(cafes, ids)| == |ids| <==> Distinct(ids) && forall i :: 0 <= i < |ids| ==> ids[i] in cafes
  {
    var found := FoundCafes(cafes, ids);
    ToSetCard(ids);
    SubsetCard(found, ToSet(ids));
    if |found| == |ids| {
      if x :| x in ToSet(ids) && x !in found {
        SubsetCard(found, ToSet(ids) - {x});
      }
      assert found == ToSet(ids);
      forall i | 0 <= i < |ids| ensures ids[i] in cafes {
        assert ids[i] in ToSet(ids);
      }
    }
    if Distinct(ids) && forall i :: 0 <= i < |ids| ==> ids[i] in cafes {
      assert found == ToSet(ids);
    }
  }

  // ------------------------------------------------------------ user lookup

  /** The user's email or phone equals the login. */
  predicate HasLogin(u: User, login: string) {
    u.email == Some(login) || u.phone == Some(login)
  }

  /** The keys of the users whose email or phone equals the login. */
  function LoginMatches(users: map<int, User>, login: string): (r: set<int>)
    ensures forall k :: k in r <==> k in users && HasLogin(users[k], login)
  {
    set k | k in users && HasLogin(users[k], login)
  }

  /** `select(User).where((User.email == login) | (User.phone == login)).limit(1)`: the key of
      the first matching user in key order, or None when nobody has that login. */
  function LoginKey(users: map<int, User>, login: string): (r: Option<int>)
    ensures r.None? <==> forall k :: k in users ==> !HasLogin(users[k], login)
    ensures r.Some? ==> r.value in users && HasLogin(users[r.value], login)
                        && forall k :: k in users && k < r.value ==> !HasLogin(users[k], login)
  {
    var matching := LoginMatches(users, login);
    if matching == {} then None else Some(Min(matching))
  }

  // --------------------------------------------------------------- database

  class Db {
    var users: map<int, User>
    var cafes: map<int, Cafe>
    var tables: map<int, Table>
    var slots: map<int, Slot>
    var bookings: map<int, Booking>
    var actions: map<int, Action>
    var dishes: map<int, Dish>
    /** The next primary key the database hands out. */
    var nextId: int

    /** Every row is stored under its own positive id, below the next free id. */
    ghost predicate Valid()
      reads this
    {
      0 < nextId
      && (forall k :: k in users ==> 0 < k < nextId && users[k].id == k)
      && (forall k :: k in cafes ==> 0 < k < nextId && cafes[k].id == k)
      && (forall k :: k in tables ==> 0 < k < nextId && tables[k].id == k)
      && (forall k :: k in slots ==> 0 < k < nextId && slots[k].id == k)
      && (forall k :: k in bookings ==> 0 < k < nextId && bookings[k].id == k)
      && (forall k :: k in actions ==> 0 < k < nextId && actions[k].id == k)
      && (forall k :: k in dishes ==> 0 < k < nextId && dishes[k].id == k)
    }

    constructor ()
      ensures Valid()
      ensures users == map[] && cafes == map[] && tables == map[] && slots == map[]
      ensures bookings == map[] && actions == map[] && dishes == map[]
    {
      users := map[];
      cafes := map[];
      tables := map[];
      slots := map[];
      bookings := map[];
      actions := map[];
      dishes := map[];
      nextId := 1;
    }

    function Snap(): Snapshot
      reads this
    {
      Snapshot(users, cafes, tables, slots, bookings, actions, dishes)
    }

    /** Writes back a stored dish under its own id. */
    method PutDish(d: Dish)
      requires Valid() && d.id in dishes
      modifies this`dishes
      ensures Valid()
      ensures dishes == old(dishes)[d.id := d]
    {
      dishes := dishes[d.id := d];
    }

    /** Writes back a stored action under its own id. */
    method PutAction(a: Action)
      requires Valid() && a.id in actions
      modifies this`actions
      ensures Valid()
      ensures actions == old(actions)[a.id := a]
    {
      actions := actions[a.id := a];
    }

    /** Hands out a fresh primary key (the autoincrement of an INSERT). */
    method NewId() returns (id: int)
      requires Valid()
      modifies this`nextId
      ensures Valid()
      ensures id == old(nextId) && nextId == id + 1 && 0 < id
      ensures id !in users && id !in cafes && id !in tables && id !in slots
      ensures id !in bookings && id !in actions && id !in dishes
    {
      id := nextId;
      nextId := nextId + 1;
    }
  }
}
