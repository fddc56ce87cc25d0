/** The older `apply_user_update`, whose field list also carries is_active. */
module AppUserServices {
  import opened Common
  import opened Entities
  import UserSchemas
  import UserServices

  /** `_MUTABLE_FIELDS` of this variant: the same fields plus is_active. */
  const MUTABLE_FIELDS: seq<UserField> := [Username, Email, Phone, TgId, Role, IsActive]

  /** The update payload of this variant: the user update plus an optional is_active. Its schema
      module, app/schemas/user.py, is not part of this model. */
  datatype AppUserUpdate = AppUserUpdate(fields: UserSchemas.UserUpdate, isActive: Option<bool>)

  /** The value one field carries, when it was sent and not null. */
  function SentValue(update: AppUserUpdate, f: UserField): Option<FieldValue> {
    if f != IsActive then UserServices.SentValue(update.fields, f)
    else if update.isActive.Some? then Some(FFlag(update.isActive.value))
    else None
  }

  /** `update.model_dump(exclude_unset=True, exclude_none=True)` once the password is popped. */
  function SentData(update: AppUserUpdate): (r: map<UserField, FieldValue>)
    ensures UserServices.AllFit(r)
    ensures forall f :: f in r <==> SentValue(update, f).Some?
    ensures forall f :: f in r ==> r[f] == SentValue(update, f).value
  {
    map f | f in {Username, Email, Phone, TgId, Role, IsActive} && SentValue(update, f).Some? :: SentValue(update, f).value
  }

  /** The user with a sent password already hashed, before the setattr loop. */
  function Hashed(entity: User, update: AppUserUpdate, hash: UserServices.Hasher): User {
    if update.fields.password.Some? then entity.(passwordHash := hash(update.fields.password.value)) else entity
  }

  /** The user after this `apply_user_update`: what the newer variant produces, with a sent
      is_active assigned as well. */
  function UserUpdated(entity: User, update: AppUserUpdate, hash: UserServices.Hasher): (r: User)
    ensures var newer := UserServices.UserUpdated(entity, update.fields, hash);
            r == if update.isActive.Some? then newer.(isActive := update.isActive.value) else newer
  {
    LoopExtendsNewer(entity, update, hash);
    UserServices.Listed(Hashed(entity, update, hash), SentData(update), MUTABLE_FIELDS)
  }

  lemma LoopExtendsNewer(entity: User, update: AppUserUpdate, hash: UserServices.Hasher)
    ensures var newer := UserServices.UserUpdated(entity, update.fields, hash);
            UserServices.Listed(Hashed(entity, update, hash), SentData(update), MUTABLE_FIELDS)
            == if update.isActive.Some? then newer.(isActive := update.isActive.value) else newer
  {
    var hashed := Hashed(entity, update, hash);
    var data := SentData(update);
    var r := UserServices.Listed(hashed, data, MUTABLE_FIELDS);
    assert forall g: UserField :: g in MUTABLE_FIELDS by {
      assert MUTABLE_FIELDS[5] == IsActive;
    }
    UserServices.ListedEveryField(hashed, data, MUTABLE_FIELDS);
    var newer := UserServices.UserUpdated(entity, update.fields, hash);
    var expected := if update.isActive.Some? then newer.(isActive := update.isActive.value) else newer;
    forall g
      ensures GetField(r, g) == GetField(expected, g)
    {
      assert GetField(r, g) == if g in data then data[g] else GetField(hashed, g);
    }
    UserServices.UserExtensionality(r, expected);
  }

  /** This variant's `apply_user_update`: the password first, then the setattr loop. */
  method ApplyUserUpdate(entity: User, update: AppUserUpdate, hash: UserServices.Hasher) returns (r: User)
    ensures r == UserUpdated(entity, update, hash)
  {
    var data := SentData(update);
    r := entity;
    if update.fields.password.Some? {
      r := r.(passwordHash := hash(update.fields.password.value));
    }
    r := UserServices.AssignListed(r, data, MUTABLE_FIELDS);
  }

  /** The two variants agree exactly when is_active is not sent or repeats the stored value. */
  lemma AgreesWithoutIsActive(entity: User, update: AppUserUpdate, hash: UserServices.Hasher)
    ensures UserUpdated(entity, update, hash) == UserServices.UserUpdated(entity, update.fields, hash) <==>
              update.isActive.None? || update.isActive == Some(entity.isActive)
  {
  }
}
