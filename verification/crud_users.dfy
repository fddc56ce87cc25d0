/** `CRUDUser`: the user listing, registration with a hashed password and the default role,
    and the partial update through `apply_user_update`. */
module CrudUsers {
  import opened Common
  import opened Entities
  import UserSchemas
  import UserServices

  /** `list_all`: every user, or only the active ones, ordered by id. */
  function ListAll(users: map<int, User>, onlyActive: bool): (r: seq<User>)
    ensures forall u :: u in r <==> u in users.Values && (onlyActive ==> u.isActive)
  {
    Filter(Rows(users), (u: User) => !onlyActive || u.isActive)
  }

  /** The listing is in ascending id order. */
  lemma ListAllOrdered(users: map<int, User>, onlyActive: bool)
    requires forall k :: k in users ==> users[k].id == k
    ensures AscendingBy(ListAll(users, onlyActive), (u: User) => u.id)
  {
    var key := (u: User) => u.id;
    RowsAscending(users, key);
    FilterAscending(Rows(users), (u: User) => !onlyActive || u.isActive, key);
  }

  /** `create_with_hash`: a new active USER with the payload's contacts and the hash of its
      password, stored under a fresh id. */
  method CreateWithHash(db: Db, objIn: UserSchemas.UserCreate, hash: UserServices.Hasher) returns (r: User)
    requires db.Valid()
    modifies db`users, db`nextId
    ensures db.Valid()
    ensures r.id == old(db.nextId) && r.id !in old(db.users)
    ensures r == User(r.id, objIn.username, objIn.email, objIn.phone, objIn.tgId, ROLE_USER, true, hash(objIn.password))
    ensures db.users == old(db.users)[r.id := r]
  {
    var id := db.NewId();
    r := User(id, objIn.username, objIn.email, objIn.phone, objIn.tgId, ROLE_USER, true, hash(objIn.password));
    db.users := db.users[id := r];
  }

  /** `update_with_logic`: the stored user after `apply_user_update`, written back. */
  method UpdateWithLogic(db: Db, userId: int, objIn: UserSchemas.UserUpdate, hash: UserServices.Hasher)
    returns (r: User)
    requires db.Valid() && userId in db.users
    modifies db`users
    ensures db.Valid()
    ensures r == UserServices.UserUpdated(old(db.users[userId]), objIn, hash)
    ensures db.users == old(db.users)[userId := r]
  {
    r := UserServices.ApplyUserUpdate(db.users[userId], objIn, hash);
    db.users := db.users[userId := r];
  }

  /** A registered user shows up in the active listing, and an update never removes a user
      from it (is_active is not among the fields it may change). */
  lemma ListingAfterWrites(users: map<int, User>, id: int, u: User, objIn: UserSchemas.UserUpdate,
                           hash: UserServices.Hasher)
    requires u.isActive
    ensures u in ListAll(users[id := u], true)
    ensures UserServices.UserUpdated(u, objIn, hash) in ListAll(users[id := UserServices.UserUpdated(u, objIn, hash)], true)
  {
    assert users[id := u][id] == u;
    var v := UserServices.UserUpdated(u, objIn, hash);
    assert users[id := v][id] == v;
  }
}
