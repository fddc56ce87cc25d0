/** Slot queries. */
module CrudSlots {
  import opened Common
  import opened Entities

  /** Whether `s` is a row of `cafeId` that the activity filter keeps. */
  predicate SlotSelected(s: Slot, cafeId: int, onlyActive: bool) {
    s.cafeId == cafeId && (!onlyActive || s.isActive)
  }

  /** `CRUDSlot.get_by_cafe`: the slots of one cafe, only the active ones when `onlyActive`. */
  function GetByCafe(slots: map<int, Slot>, cafeId: int, onlyActive: bool): (r: seq<Slot>)
    ensures forall s :: s in r <==> s in slots.Values && SlotSelected(s, cafeId, onlyActive)
  {
    Filter(Rows(slots), s => SlotSelected(s, cafeId, onlyActive))
  }

  /** The active slots of a cafe are among all its slots. */
  lemma ActiveAmongAll(slots: map<int, Slot>, cafeId: int)
    ensures forall s :: s in GetByCafe(slots, cafeId, true) ==> s in GetByCafe(slots, cafeId, false)
  {
  }
}
