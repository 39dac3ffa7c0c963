/**
  The database the request handlers work on: one object whose tables are updated in
  place, with the id each table hands out next. It also carries the row-level
  operations of turf_app/models.py that change stored rows: Booking.cancel and the
  cascading deletes of a slot and of a turf.
 */
module Persistence {
  import opened Models

  class Store {
    var turfs: map<nat, Turf>
    var slots: map<nat, Slot>
    var bookings: map<nat, Booking>
    var nextTurfId: nat
    var nextSlotId: nat
    var nextBookingId: nat

    /** The current tables as a value. */
    function Snapshot(): (db: Db)
      reads this
    {
      Db(turfs, slots, bookings)
    }

    /** The tables are well formed and every id handed out so far is below the next one. */
    ghost predicate Valid()
      reads this
    {
      && WellFormed(Snapshot())
      && (forall t :: t in turfs ==> t < nextTurfId)
      && (forall s :: s in slots ==> s < nextSlotId)
      && (forall b :: b in bookings ==> b < nextBookingId)
    }

    /** An empty database. */
    constructor ()
      ensures Valid() && Consistent(Snapshot())
      ensures Snapshot() == Db(map[], map[], map[])
      ensures nextTurfId == 0 && nextSlotId == 0 && nextBookingId == 0
    {
      turfs, slots, bookings := map[], map[], map[];
      nextTurfId, nextSlotId, nextBookingId := 0, 0, 0;
    }

    /**
      Booking.cancel: the booking becomes cancelled and its slot, when stored, is freed.
      It keeps the flags in step with the bookings when the booking was confirmed.
     */
    method Cancel(id: nat)
      requires Valid() && id in bookings
      modifies this
      ensures Valid()
      ensures Snapshot() == CancelRecord(old(Snapshot()), id)
      ensures nextTurfId == old(nextTurfId) && nextSlotId == old(nextSlotId)
      ensures nextBookingId == old(nextBookingId)
      ensures old(Consistent(Snapshot()) && bookings[id].status == Confirmed) ==> Consistent(Snapshot())
    {
      ghost var before := Snapshot();
      var booking := bookings[id];
      bookings := bookings[id := booking.(status := Cancelled)];
      if booking.slotId in slots {
        slots := slots[booking.slotId := slots[booking.slotId].(isBooked := false)];
      }
      CancelRecordKeepsWellFormed(before, id);
      if Consistent(before) && before.bookings[id].status == Confirmed {
        CancelConfirmedKeepsConsistent(before, id);
      }
    }

    /**
      Deletes a slot with the corrected cascade: every booking that refers to it goes
      too. DeleteSlotLoaded is the delete as the one-to-one relationship performs it.
     */
    method DeleteSlot(id: nat)
      requires Valid()
      modifies this
      ensures Valid()
      ensures Snapshot() == DeleteSlotRows(old(Snapshot()), id)
      ensures nextTurfId == old(nextTurfId) && nextSlotId == old(nextSlotId)
      ensures nextBookingId == old(nextBookingId)
      ensures old(Consistent(Snapshot())) ==> Consistent(Snapshot())
    {
      ghost var before := Snapshot();
      slots := slots - {id};
      bookings := map b | b in bookings && bookings[b].slotId != id :: bookings[b];
      DeleteSlotRowsKeepsInvariants(before, id);
    }

    /**
      Deletes a slot as its one-to-one booking relationship does: only the booking the
      mapper loaded as the slot's booking goes with it. The tables stay valid only while
      that booking was the slot's only one.
     */
    method DeleteSlotLoaded(id: nat, loaded: nat)
      requires Valid()
      modifies this
      ensures Snapshot() == DeleteSlotLoadedRows(old(Snapshot()), id, loaded)
      ensures nextTurfId == old(nextTurfId) && nextSlotId == old(nextSlotId)
      ensures nextBookingId == old(nextBookingId)
      ensures old(OnlyBookingOf(bookings, id, loaded)) ==> Valid()
      ensures old(OnlyBookingOf(bookings, id, loaded) && Consistent(Snapshot())) ==> Consistent(Snapshot())
    {
      ghost var before := Snapshot();
      slots := slots - {id};
      if loaded in bookings && bookings[loaded].slotId == id {
        bookings := bookings - {loaded};
      }
      if OnlyBookingOf(before.bookings, id, loaded) {
        LoadedDeleteAgreesWithSingleBooking(before, id, loaded);
        DeleteSlotRowsKeepsInvariants(before, id);
      }
    }

    /** Deletes a turf; the cascade removes its slots and its bookings. */
    method DeleteTurf(id: nat)
      requires Valid()
      modifies this
      ensures Valid()
      ensures Snapshot() == DeleteTurfRows(old(Snapshot()), id)
      ensures nextTurfId == old(nextTurfId) && nextSlotId == old(nextSlotId)
      ensures nextBookingId == old(nextBookingId)
      ensures old(Consistent(Snapshot())) ==> Consistent(Snapshot())
    {
      ghost var before := Snapshot();
      turfs := turfs - {id};
      slots := map s | s in slots && slots[s].turfId != id :: slots[s];
      bookings := map b | b in bookings && bookings[b].turfId != id :: bookings[b];
      DeleteTurfRowsKeepsInvariants(before, id);
    }
  }
}
