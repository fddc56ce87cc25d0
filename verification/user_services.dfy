/** `apply_user_update`: a partial update that hashes a new password and assigns, field by
    field, the mutable fields the client sent with a value. */
module UserServices {
  import opened Common
  import opened Entities
  import UserSchemas

  /** `hash_password`, which is not part of this model. */
  type Hasher = string -> string

  /** `_MUTABLE_FIELDS`: is_active is not among them. */
  const MUTABLE_FIELDS: seq<UserField> := [Username, Email, Phone, TgId, Role]

  predicate AllFit(data: map<UserField, FieldValue>) {
    forall f :: f in data ==> Fits(f, data[f])
  }

  /** The value one field of an update carries, when it was sent and not null. */
  function SentValue(update: UserSchemas.UserUpdate, f: UserField): Option<FieldValue> {
    match f
    case Username => if update.username.Some? then Some(FText(update.username)) else None
    case Email => if update.email.Some? then Some(FText(update.email)) else None
    case Phone => if update.phone.Some? then Some(FText(update.phone)) else None
    case TgId => if update.tgId.Some? then Some(FText(update.tgId)) else None
    case Role => if update.role.Some? then Some(FInt(update.role.value)) else None
    case IsActive => None
  }

  /** `update.model_dump(exclude_unset=True, exclude_none=True)` once the password is popped. */
  function SentData(update: UserSchemas.UserUpdate): (r: map<UserField, FieldValue>)
    ensures AllFit(r)
    ensures forall f :: f in r <==> SentValue(update, f).Some?
    ensures forall f :: f in r ==> r[f] == SentValue(update, f).value
  {
    map f | f in {Username, Email, Phone, TgId, Role} && SentValue(update, f).Some? :: SentValue(update, f).value
  }

  /** `for field in fields: if field in data: setattr(entity, field, data[field])`: a listed
      field that was sent takes the sent value, every other field keeps its own. */
  function Listed(u: User, data: map<UserField, FieldValue>, fields: seq<UserField>): (r: User)
    requires AllFit(data)
    ensures forall g :: GetField(r, g) == if g in fields && g in data then data[g] else GetField(u, g)
    ensures r.id == u.id && r.passwordHash == u.passwordHash
    decreases |fields|
  {
    if fields == [] then u
    else
      var prefix := fields[..|fields| - 1];
      var f := fields[|fields| - 1];
      assert fields == prefix + [f];
      var prev := Listed(u, data, prefix);
      if f in data then SetField(prev, f, data[f]) else prev
  }

  /** When the list names every field, exactly the sent fields change. */
  lemma ListedEveryField(u: User, data: map<UserField, FieldValue>, fields: seq<UserField>)
    requires AllFit(data)
    requires forall g: UserField :: g in fields
    ensures var r := Listed(u, data, fields);
            forall g :: GetField(r, g) == if g in data then data[g] else GetField(u, g)
  {
  }

  /** A user is determined by its id, its password hash and its assignable fields. */
  lemma UserExtensionality(a: User, b: User)
    requires a.id == b.id && a.passwordHash == b.passwordHash
    requires forall g :: GetField(a, g) == GetField(b, g)
    ensures a == b
  {
    assert GetField(a, Username) == GetField(b, Username);
    assert GetField(a, Email) == GetField(b, Email);
    assert GetField(a, Phone) == GetField(b, Phone);
    assert GetField(a, TgId) == GetField(b, TgId);
    assert GetField(a, Role) == GetField(b, Role);
    assert GetField(a, IsActive) == GetField(b, IsActive);
  }

  /** The setattr loop over a field list; shared by both variants of `apply_user_update`. */
  method AssignListed(entity: User, data: map<UserField, FieldValue>, fields: seq<UserField>) returns (r: User)
    requires AllFit(data)
    ensures r == Listed(entity, data, fields)
  {
    r := entity;
    var i := 0;
    while i < |fields|
      invariant 0 <= i <= |fields|
      invariant r == Listed(entity, data, fields[..i])
    {
      assert fields[..i + 1][..i] == fields[..i];
      if fields[i] in data {
        r := SetField(r, fields[i], data[fields[i]]);
      }
      i := i + 1;
    }
    assert fields[..|fields|] == fields;
  }

  /** The user after `apply_user_update`: a sent password replaces the hash, each sent field
      replaces its value, and is_active never changes. */
  function UserUpdated(entity: User, update: UserSchemas.UserUpdate, hash: Hasher): (r: User)
    ensures r.id == entity.id
    ensures r.passwordHash == if update.password.Some? then hash(update.password.value) else entity.passwordHash
    ensures r.username == if update.username.Some? then update.username.value else entity.username
    ensures r.email == if update.email.Some? then update.email else entity.email
    ensures r.phone == if update.phone.Some? then update.phone else entity.phone
    ensures r.tgId == if update.tgId.Some? then update.tgId else entity.tgId
    ensures r.role == if update.role.Some? then update.role.value else entity.role
    ensures r.isActive == entity.isActive
  {
    var hashed := if update.password.Some? then entity.(passwordHash := hash(update.password.value)) else entity;
    var data := SentData(update);
    var r := Listed(hashed, data, MUTABLE_FIELDS);
    assert GetField(r, Username) == (if Username in data then data[Username] else GetField(hashed, Username))
      by { assert Username in MUTABLE_FIELDS; }
    assert GetField(r, Email) == (if Email in data then data[Email] else GetField(hashed, Email))
      by { assert Email in MUTABLE_FIELDS; }
    assert GetField(r, Phone) == (if Phone in data then data[Phone] else GetField(hashed, Phone))
      by { assert Phone in MUTABLE_FIELDS; }
    assert GetField(r, TgId) == (if TgId in data then data[TgId] else GetField(hashed, TgId))
      by { assert TgId in MUTABLE_FIELDS; }
    assert GetField(r, Role) == (if Role in data then data[Role] else GetField(hashed, Role))
      by { assert Role in MUTABLE_FIELDS; }
    assert GetField(r, IsActive) == GetField(hashed, IsActive);
    r
  }

  /** `apply_user_update`. The role's `int(...)` coercion leaves an int unchanged. */
  method ApplyUserUpdate(entity: User, update: UserSchemas.UserUpdate, hash: Hasher) returns (r: User)
    ensures r == UserUpdated(entity, update, hash)
  {
    var data := SentData(update);
    r := entity;
    if update.password.Some? {
      r := r.(passwordHash := hash(update.password.value));
    }
    r := AssignListed(r, data, MUTABLE_FIELDS);
  }

  /** An update that sends nothing leaves the user as it was. */
  lemma EmptyUpdateKeepsUser(entity: User, hash: Hasher)
    ensures UserUpdated(entity, UserSchemas.UserUpdate(None, None, None, None, None, None), hash) == entity
  {
  }

  /** Applying the same update twice is the same as applying it once, when the password is not
      part of it (a new salt makes every hash differ). */
  lemma UpdateIdempotent(entity: User, update: UserSchemas.UserUpdate, hash: Hasher)
    requires update.password.None?
    ensures UserUpdated(UserUpdated(entity, update, hash), update, hash) == UserUpdated(entity, update, hash)
  {
  }
}
