/** Creating, claiming and cancelling slots. */
module SlotService {
  import opened Wrappers
  import opened SlotProtocol
  import opened Database

  /** What the attempt to take the Redis lock came to, and whether its release reaches Redis. */
  datatype Lock = Acquired(released: bool) | TimedOut | Unavailable

  datatype ClaimResult = ClaimResult(success: bool, statusCode: nat, slot: Option<Slot>)

  /** A new slot is open, unclaimed and at version 1; the database picks an unused id. */
  method CreateSlot(store: Store, businessId: int, id: int)
    requires id !in store.slots
    modifies store`slots
    ensures store.slots == old(store.slots)[id := Slot(businessId, Initial().row)]
  {
    store.slots := store.slots[id := Slot(businessId, Row(OPEN, None, 1))];
  }

  /**
   Claims a slot. Answer and effect do not depend on the lock: 404 for an unknown customer or
   slot, 200 when the slot was open, 409 otherwise; no other slot changes. The lock is given back
   on every path, as far as Redis can be reached.
   */
  method ClaimSlotAtomic(store: Store, slotId: int, customerId: int, lock: Lock) returns (r: ClaimResult)
    requires lock.Acquired? ==> slotId !in store.locks
    modifies store`slots, store`locks
    ensures r.success <==> r.statusCode == 200
    ensures customerId !in store.customers || slotId !in old(store.slots) ==>
              r.statusCode == 404 && store.slots == old(store.slots)
    ensures customerId in store.customers && slotId in old(store.slots) ==>
              && r.statusCode == ClaimCode(old(store.slots)[slotId].row)
              && store.slots == old(store.slots)[slotId := old(store.slots)[slotId].(row :=
                   ClaimRow(old(store.slots)[slotId].row, customerId))]
              && r.slot == Some(store.slots[slotId])
    ensures store.locks == old(store.locks)
                           + if lock == Acquired(false) && customerId in store.customers then {slotId} else {}
  {
    if customerId !in store.customers {
      return ClaimResult(false, 404, None);
    }
    var lockAcquired := lock.Acquired?;
    if lockAcquired {
      store.locks := store.locks + {slotId};
    }
    r := ClaimUnlocked(store, slotId, customerId);
    if lockAcquired && lock.released {
      store.locks := store.locks - {slotId};
    }
  }

  /** The part under the lock: the conditional UPDATE and the reading of its outcome. */
  method ClaimUnlocked(store: Store, slotId: int, customerId: int) returns (r: ClaimResult)
    modifies store`slots
    ensures r.success <==> r.statusCode == 200
    ensures slotId !in old(store.slots) ==> r.statusCode == 404 && store.slots == old(store.slots)
    ensures slotId in old(store.slots) ==>
              && r.statusCode == ClaimCode(old(store.slots)[slotId].row)
              && store.slots == old(store.slots)[slotId := old(store.slots)[slotId].(row :=
                   ClaimRow(old(store.slots)[slotId].row, customerId))]
              && r.slot == Some(store.slots[slotId])
  {
    var rowsAffected := 0;
    if slotId in store.slots && store.slots[slotId].row.status == OPEN {
      var row := store.slots[slotId].row;
      store.slots := store.slots[slotId := store.slots[slotId].(row :=
                       Row(CLAIMED, Some(customerId), row.version + 1))];
      rowsAffected := 1;
    }
    if rowsAffected == 1 {
      return ClaimResult(true, 200, Some(store.slots[slotId]));
    }
    if slotId !in store.slots {
      return ClaimResult(false, 404, None);
    }
    r := ClaimResult(false, 409, Some(store.slots[slotId]));
  }

  /** The first half of a cancellation: the row as loaded, or the HTTP status of the refusal. */
  method CancelRead(store: Store, slotId: int, businessId: int) returns (slot: Option<Slot>, statusCode: nat)
    ensures slotId !in store.slots || store.slots[slotId].businessId != businessId <==> statusCode == 404
    ensures statusCode == 200 || statusCode == 400 || statusCode == 404
    ensures slot.Some? <==> statusCode == 200
    ensures slot.Some? ==> slotId in store.slots && slot.value == store.slots[slotId]
                           && store.slots[slotId].businessId == businessId && Proceeds(Cancel, slot.value.row.status)
    ensures statusCode == 400 <==> slotId in store.slots && store.slots[slotId].businessId == businessId
                                   && !Proceeds(Cancel, store.slots[slotId].row.status)
    ensures slotId in store.slots && store.slots[slotId].businessId == businessId ==>
              forall s: State, p :: s.row == store.slots[slotId].row && p !in s.pending ==>
                (p in Step(s, Start(p, Cancel)).pending <==> slot.Some?)
  {
    if slotId !in store.slots || store.slots[slotId].businessId != businessId {
      return None, 404;
    }
    if store.slots[slotId].row.status == CLAIMED {
      return None, 400;
    }
    return Some(store.slots[slotId]), 200;
  }

  /**
   Committing a status given to a loaded row: nothing is written when the value is unchanged. This
   is the protocol's Finish for any process whose write it is, whatever the row holds by now.
   */
  method Commit(store: Store, slotId: int, loaded: Status, status: Status)
    requires slotId in store.slots
    modifies store`slots
    ensures store.slots == old(store.slots)[slotId := old(store.slots)[slotId].(row :=
              WriteStatus(old(store.slots)[slotId].row, if loaded == status then None else Some(status)))]
    ensures forall s: State, p, n ::
              (&& s.row == old(store.slots)[slotId].row && p in s.pending
               && Written(s.pending[p].kind, s.pending[p].seen)
                  == (if loaded == status then None else Some(status))) ==>
                Step(s, Finish(p, n)).row == store.slots[slotId].row
  {
    if loaded != status {
      store.slots := store.slots[slotId := store.slots[slotId].(row := store.slots[slotId].row.(status := status))];
    }
  }

  /** Both halves of a cancellation with nothing in between. */
  method CancelSlotByOwner(store: Store, slotId: int, businessId: int) returns (statusCode: nat)
    modifies store`slots
    ensures slotId !in old(store.slots) || old(store.slots)[slotId].businessId != businessId ==> statusCode == 404
    ensures slotId in old(store.slots) && old(store.slots)[slotId].businessId == businessId ==>
              statusCode == if old(store.slots)[slotId].row.status == CLAIMED then 400 else 200
    ensures statusCode != 200 ==> store.slots == old(store.slots)
    ensures statusCode == 200 ==>
              store.slots == old(store.slots)[slotId := old(store.slots)[slotId].(row :=
                               old(store.slots)[slotId].row.(status := CANCELLED))]
    ensures slotId in old(store.slots) && old(store.slots)[slotId].businessId == businessId ==>
              forall s: State, p :: s.row == old(store.slots)[slotId].row && p !in s.pending ==>
                Step(Step(s, Start(p, Cancel)), Finish(p, 0)).row == store.slots[slotId].row
  {
    if slotId in store.slots {
      CancelSteps(store.slots[slotId].row);
    }
    hide Step;
    var slot: Option<Slot>;
    slot, statusCode := CancelRead(store, slotId, businessId);
    if slot.Some? {
      Commit(store, slotId, slot.value.row.status, CANCELLED);
    }
  }

  /** Read and write of a cancellation are the protocol's two steps. */
  lemma CancelSteps(row: Row)
    ensures forall s: State, p :: s.row == row && p !in s.pending ==>
              Step(Step(s, Start(p, Cancel)), Finish(p, 0)).row
              == if row.status == CLAIMED then row else row.(status := CANCELLED)
  {
  }
}
