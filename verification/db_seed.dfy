/** `ensure_user`, the idempotent upsert the demo seeding runs for each of its accounts: find
    the user by email or phone, bring its role and activity in line, or create it. */
module DbSeed {
  import opened Common
  import opened Entities

  /** A new seeded user: a login with '@' is its email, any other login its phone. */
  function SeedUser(id: int, login: string, username: string, role: int, isActive: bool, passwordHash: string)
    : (r: User)
    ensures HasLogin(r, login)
    ensures r.id == id && r.role == role && r.isActive == isActive && r.tgId.None?
    ensures ('@' in login ==> r.email == Some(login) && r.phone.None?)
    ensures ('@' !in login ==> r.phone == Some(login) && r.email.None?)
  {
    User(id, username,
         if '@' in login then Some(login) else None,
         if '@' in login then None else Some(login),
         None, role, isActive, passwordHash)
  }

  /** The users and the returned user after `ensure_user`; `freshId` is the key an INSERT would
      get and `passwordHash` the hash of the given password. */
  function Ensured(users: map<int, User>, freshId: int, login: string, passwordHash: string, username: string,
                   role: int, isActive: bool): (r: (map<int, User>, User))
    requires freshId !in users
    requires forall k :: k in users ==> users[k].id == k
    ensures forall k :: k in r.0 ==> r.0[k].id == k
    ensures r.1.id in r.0 && r.0[r.1.id] == r.1
    ensures r.1.role == role && r.1.isActive == isActive
    ensures LoginKey(r.0, login) == Some(r.1.id)
    ensures LoginKey(users, login).Some? ==>
              var k := LoginKey(users, login).value;
              r.1 == users[k].(role := role, isActive := isActive) && r.0 == users[k := r.1]
    ensures LoginKey(users, login).None? ==>
              r.1 == SeedUser(freshId, login, username, role, isActive, passwordHash) && r.0 == users[freshId := r.1]
  {
    match LoginKey(users, login)
    case Some(k) =>
      var u := users[k].(role := role, isActive := isActive);
      var after := users[k := u];
      assert LoginMatches(after, login) == LoginMatches(users, login);
      (after, u)
    case None =>
      var u := SeedUser(freshId, login, username, role, isActive, passwordHash);
      var after := users[freshId := u];
      assert LoginMatches(after, login) == {freshId};
      (after, u)
  }

  /** Running the upsert again with the same arguments changes nothing and returns the same user. */
  lemma EnsureIdempotent(users: map<int, User>, freshId: int, freshId2: int, login: string, passwordHash: string,
                         passwordHash2: string, username: string, role: int, isActive: bool)
    requires freshId !in users
    requires forall k :: k in users ==> users[k].id == k
    requires freshId2 !in Ensured(users, freshId, login, passwordHash, username, role, isActive).0
    ensures var once := Ensured(users, freshId, login, passwordHash, username, role, isActive);
            Ensured(once.0, freshId2, login, passwordHash2, username, role, isActive) == once
  {
    var once := Ensured(users, freshId, login, passwordHash, username, role, isActive);
    var u := once.1;
    assert once.0[u.id := u.(role := role, isActive := isActive)] == once.0;
  }

  /** `ensure_user`; `wrote` is whether the session committed. The existing user is written only
      when its role or activity differs, and the new user gets a fresh id. */
  method EnsureUser(db: Db, login: string, password: string, username: string, role: int, isActive: bool,
                    hash: string -> string) returns (r: User, wrote: bool)
    requires db.Valid()
    modifies db`users, db`nextId
    ensures db.Valid()
    ensures (db.users, r) == Ensured(old(db.users), old(db.nextId), login, hash(password), username, role, isActive)
    ensures wrote <==> db.users != old(db.users)
    ensures !wrote ==> db.nextId == old(db.nextId)
  {
    var key := LoginKey(db.users, login);
    if key.Some? {
      var user := db.users[key.value];
      var needsUpdate := false;
      if user.role != role {
        user := user.(role := role);
        needsUpdate := true;
      }
      if user.isActive != isActive {
        user := user.(isActive := isActive);
        needsUpdate := true;
      }
      if needsUpdate {
        db.users := db.users[key.value := user];
      } else {
        assert db.users[key.value := user] == db.users;
      }
      return user, needsUpdate;
    }
    var id := db.NewId();
    r := SeedUser(id, login, username, role, isActive, hash(password));
    db.users := db.users[id := r];
    wrote := true;
    assert id in db.users && id !in old(db.users);
  }
}
