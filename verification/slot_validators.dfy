/** Lookup and permission checks used by the slot and booking endpoints. */
module SlotValidators {
  import opened Common
  import opened Entities

  const CAFE_MISSING_MESSAGE := "Такого кафе нет или оно не активно."
  const SLOT_MISSING_MESSAGE := "Слот не найден."
  const NO_ACCESS_MESSAGE := "У вас нет прав доступа."
  const SLOT_INACTIVE_MESSAGE := "Слот не активен."

  /** `cafe_exists`: the cafe, provided it exists and is active. */
  function CafeExists(cafes: map<int, Cafe>, cafeId: int): (r: Outcome<Cafe>)
    ensures r.Ok? <==> cafeId in cafes && cafes[cafeId].isActive
    ensures r.Ok? ==> r.value == cafes[cafeId]
    ensures r.Fail? ==> r == HttpFail(404, CAFE_MISSING_MESSAGE)
  {
    if cafeId !in cafes || !cafes[cafeId].isActive then HttpFail(404, CAFE_MISSING_MESSAGE)
    else Ok(cafes[cafeId])
  }

  /** `slot_exists`: the slot whenever it exists, active or not. */
  function SlotExists(slots: map<int, Slot>, slotId: int): (r: Outcome<Slot>)
    ensures r.Ok? <==> slotId in slots
    ensures r.Ok? ==> r.value == slots[slotId]
    ensures r.Fail? ==> r == HttpFail(404, SLOT_MISSING_MESSAGE)
  {
    if slotId !in slots then HttpFail(404, SLOT_MISSING_MESSAGE) else Ok(slots[slotId])
  }

  /** `user.managed_cafes`: the cafes whose managers include the user. */
  function ManagedCafes(cafes: map<int, Cafe>, userId: int): (r: set<int>)
    ensures forall c :: c in r <==> c in cafes && userId in cafes[c].managers
  {
    set c | c in cafes && userId in cafes[c].managers
  }

  /** `user_can_manage_cafe`: an ADMIN always, a MANAGER for a cafe they manage, nobody else. */
  function UserCanManageCafe(user: User, managedCafes: set<int>, cafeId: int): (r: Outcome<()>)
    ensures r.Ok? <==> user.role == ROLE_ADMIN || (user.role == ROLE_MANAGER && cafeId in managedCafes)
    ensures r.Fail? ==> r == HttpFail(403, NO_ACCESS_MESSAGE)
  {
    if user.role == ROLE_ADMIN then Ok(())
    else if user.role == ROLE_MANAGER && cafeId in managedCafes then Ok(())
    else HttpFail(403, NO_ACCESS_MESSAGE)
  }

  /** Managing more cafes never turns a permitted action into a refusal. */
  lemma ManageMonotone(user: User, fewer: set<int>, more: set<int>, cafeId: int)
    requires fewer <= more
    requires UserCanManageCafe(user, fewer, cafeId).Ok?
    ensures UserCanManageCafe(user, more, cafeId).Ok?
  {
  }

  /** A user of role USER (or any role other than MANAGER and ADMIN) is refused every cafe. */
  lemma PlainUserNeverManages(user: User, managedCafes: set<int>, cafeId: int)
    requires user.role != ROLE_ADMIN && user.role != ROLE_MANAGER
    ensures FailsWith(UserCanManageCafe(user, managedCafes, cafeId), 403)
  {
  }

  /** `slot_active`: refuses an inactive slot. */
  function SlotActive(slot: Slot): (r: Outcome<()>)
    ensures r.Fail? <==> !slot.isActive
    ensures r.Fail? ==> r == HttpFail(403, SLOT_INACTIVE_MESSAGE)
  {
    if !slot.isActive then HttpFail(403, SLOT_INACTIVE_MESSAGE) else Ok(())
  }
}
