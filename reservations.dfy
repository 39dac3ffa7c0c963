/**
  A player's requests in turf_app/main.py: booking a slot (book_slot) and cancelling
  one's own booking (cancel_booking). Each request is given as a function from the
  tables before to the tables after, and as a method that performs the same updates
  in place on the store.

  cancel_booking does not look at the booking's status. Cancelling a booking that is
  already cancelled frees its slot again, even when someone else has booked that slot
  in the meantime, and the slot can then be booked a second time.
  RepeatedCancelBreaksFlags shows this. CancelRequestIfConfirmed is the corrected
  request, and CancelIfConfirmedKeepsConsistent proves it keeps the invariant.
 */
module Reservations {
  import opened Models
  import opened Persistence

  // ---------------------------------------------------------------------------
  // book_slot
  // ---------------------------------------------------------------------------

  /** book_slot: a free slot gets one new confirmed booking (row newId) and is marked booked. */
  function Book(db: Db, slotId: nat, userId: nat, newId: nat): (step: Step)
  {
    if slotId !in db.slots then Step(db, NotFound)
    else if db.slots[slotId].isBooked then Step(db, AlreadyBooked)
    else
      var slot := db.slots[slotId];
      Step(db.(slots := db.slots[slotId := slot.(isBooked := true)],
               bookings := db.bookings[newId := Booking(userId, slot.turfId, slotId, Confirmed)]),
           Created(newId))
  }

  /** Booking keeps the tables well formed, and keeps flags and bookings in step. */
  lemma BookKeepsInvariants(db: Db, slotId: nat, userId: nat, newId: nat)
    requires WellFormed(db) && newId !in db.bookings
    ensures WellFormed(Book(db, slotId, userId, newId).db)
    ensures Consistent(db) ==> Consistent(Book(db, slotId, userId, newId).db)
  {
    var after := Book(db, slotId, userId, newId).db;
    if slotId in db.slots && !db.slots[slotId].isBooked {
      assert forall s :: s in after.slots ==> after.slots[s].turfId == db.slots[s].turfId;
      assert NoOverlaps(after.slots) by {
        forall i, j | i in after.slots && j in after.slots
          ensures after.slots[i].start == db.slots[i].start && after.slots[i].end == db.slots[i].end
          ensures after.slots[i].date == db.slots[i].date
          ensures after.slots[j].start == db.slots[j].start && after.slots[j].end == db.slots[j].end
          ensures after.slots[j].date == db.slots[j].date
        {
        }
      }
      if Consistent(db) {
        forall s | s in after.slots
          ensures after.slots[s].isBooked <==> HasConfirmed(after.bookings, s)
        {
          if s == slotId {
            assert after.bookings[newId].slotId == s && after.bookings[newId].status == Confirmed;
          } else {
            if HasConfirmed(db.bookings, s) {
              var b :| b in db.bookings && db.bookings[b].slotId == s && db.bookings[b].status == Confirmed;
              assert after.bookings[b] == db.bookings[b];
            }
            if HasConfirmed(after.bookings, s) {
              var b :| b in after.bookings && after.bookings[b].slotId == s && after.bookings[b].status == Confirmed;
              assert b != newId;
              assert db.bookings[b] == after.bookings[b];
            }
          }
        }
        forall a | a in after.bookings && a != newId && after.bookings[a].status == Confirmed
          ensures after.bookings[a].slotId != slotId
        {
          assert db.bookings[a] == after.bookings[a];
        }
      }
    }
  }

  /** A second booking of the same slot is refused and leaves the first one as it was. */
  lemma DoubleBookRefused(db: Db, slotId: nat, firstUser: nat, secondUser: nat, firstId: nat, secondId: nat)
    requires Book(db, slotId, firstUser, firstId).outcome.Created?
    ensures var first := Book(db, slotId, firstUser, firstId).db;
            && first.bookings[firstId] == Booking(firstUser, db.slots[slotId].turfId, slotId, Confirmed)
            && Book(first, slotId, secondUser, secondId) == Step(first, AlreadyBooked)
  {
  }

  /** Book and revenue: a new booking adds the turf's price to that turf's revenue only. */
  lemma BookRaisesRevenue(db: Db, slotId: nat, userId: nat, newId: nat, turfId: nat)
    requires newId !in db.bookings && turfId in db.turfs
    requires Book(db, slotId, userId, newId).outcome.Created?
    ensures var after := Book(db, slotId, userId, newId).db;
            TotalRevenue(after, turfId) ==
              TotalRevenue(db, turfId) + (if db.slots[slotId].turfId == turfId then db.turfs[turfId].price else 0)
  {
    var after := Book(db, slotId, userId, newId).db;
    TotalRevenueIsPriceTimesConfirmed(db, turfId);
    TotalRevenueIsPriceTimesConfirmed(after, turfId);
    if db.slots[slotId].turfId == turfId {
      assert ConfirmedOf(after.bookings, turfId) == ConfirmedOf(db.bookings, turfId) + {newId};
      assert db.turfs[turfId].price * |ConfirmedOf(after.bookings, turfId)|
          == db.turfs[turfId].price * |ConfirmedOf(db.bookings, turfId)| + db.turfs[turfId].price;
    } else {
      assert ConfirmedOf(after.bookings, turfId) == ConfirmedOf(db.bookings, turfId);
    }
  }

  /** book_slot performed in place; the new booking takes the next booking id. */
  method BookSlot(store: Store, slotId: nat, userId: nat) returns (outcome: Outcome)
    requires store.Valid()
    modifies store
    ensures store.Valid()
    ensures var step := Book(old(store.Snapshot()), slotId, userId, old(store.nextBookingId));
            store.Snapshot() == step.db && outcome == step.outcome
    ensures store.nextTurfId == old(store.nextTurfId) && store.nextSlotId == old(store.nextSlotId)
    ensures store.nextBookingId == old(store.nextBookingId) + (if outcome.Created? then 1 else 0)
    ensures old(Consistent(store.Snapshot())) ==> Consistent(store.Snapshot())
  {
    ghost var before := store.Snapshot();
    if slotId !in store.slots {
      return NotFound;
    }
    var slot := store.slots[slotId];
    if slot.isBooked {
      return AlreadyBooked;
    }
    var id := store.nextBookingId;
    store.bookings := store.bookings[id := Booking(userId, slot.turfId, slotId, Confirmed)];
    store.slots := store.slots[slotId := slot.(isBooked := true)];
    store.nextBookingId := id + 1;
    BookKeepsInvariants(before, slotId, userId, id);
    outcome := Created(id);
  }

  // ---------------------------------------------------------------------------
  // cancel_booking
  // ---------------------------------------------------------------------------

  /**
    cancel_booking as written: only the booking's player may cancel; the booking becomes
    cancelled and its slot, when stored, is freed. Its status is not checked first.
   */
  function CancelRequest(db: Db, bookingId: nat, userId: nat): (step: Step)
  {
    if bookingId !in db.bookings then Step(db, NotFound)
    else if db.bookings[bookingId].userId != userId then Step(db, Forbidden)
    else Step(CancelRecord(db, bookingId), Done)
  }

  /** Cancelling keeps the tables well formed; it keeps the flags in step when the booking was confirmed. */
  lemma CancelKeepsInvariants(db: Db, bookingId: nat, userId: nat)
    requires WellFormed(db)
    ensures WellFormed(CancelRequest(db, bookingId, userId).db)
    ensures Consistent(db) && bookingId in db.bookings && db.bookings[bookingId].status == Confirmed
            ==> Consistent(CancelRequest(db, bookingId, userId).db)
  {
    if bookingId in db.bookings && db.bookings[bookingId].userId == userId {
      CancelRecordKeepsWellFormed(db, bookingId);
      if Consistent(db) && db.bookings[bookingId].status == Confirmed {
        CancelConfirmedKeepsConsistent(db, bookingId);
      }
    }
  }

  /** Booking a free slot and then cancelling that booking frees the slot and leaves one cancelled booking. */
  lemma BookThenCancelFreesSlot(db: Db, slotId: nat, userId: nat, newId: nat)
    requires slotId in db.slots && !db.slots[slotId].isBooked && newId !in db.bookings
    ensures var booked := Book(db, slotId, userId, newId).db;
            var cancelled := CancelRequest(booked, newId, userId);
            && cancelled.outcome == Done
            && cancelled.db.slots == db.slots
            && cancelled.db.bookings == db.bookings[newId := Booking(userId, db.slots[slotId].turfId, slotId, Cancelled)]
  {
    var booked := Book(db, slotId, userId, newId).db;
    var cancelled := CancelRequest(booked, newId, userId).db;
    assert cancelled.slots[slotId] == db.slots[slotId];
    assert cancelled.slots == db.slots;
  }

  /**
    Cancel and revenue: cancelling a confirmed booking takes its turf's price off that
    turf's revenue; any other request to cancel leaves every revenue as it was.
   */
  lemma CancelLowersRevenue(db: Db, bookingId: nat, userId: nat, turfId: nat)
    requires turfId in db.turfs
    ensures var after := CancelRequest(db, bookingId, userId).db;
            TotalRevenue(after, turfId) ==
              TotalRevenue(db, turfId)
              - (if CancelRequest(db, bookingId, userId).outcome == Done && db.bookings[bookingId].turfId == turfId
                    && db.bookings[bookingId].status == Confirmed
                 then db.turfs[turfId].price else 0)
  {
    var after := CancelRequest(db, bookingId, userId).db;
    if CancelRequest(db, bookingId, userId).outcome == Done {
      TotalRevenueIsPriceTimesConfirmed(db, turfId);
      TotalRevenueIsPriceTimesConfirmed(after, turfId);
      var b := db.bookings[bookingId];
      if b.turfId == turfId && b.status == Confirmed {
        assert ConfirmedOf(db.bookings, turfId) == ConfirmedOf(after.bookings, turfId) + {bookingId};
        assert db.turfs[turfId].price * |ConfirmedOf(db.bookings, turfId)|
            == db.turfs[turfId].price * |ConfirmedOf(after.bookings, turfId)| + db.turfs[turfId].price;
      } else {
        assert ConfirmedOf(after.bookings, turfId) == ConfirmedOf(db.bookings, turfId);
      }
    }
  }

  /**
    The repeated cancel, as written. Slot 1 is booked by player 10 (booking 1) and
    cancelled; player 20 books it (booking 2); player 10 cancels booking 1 again. The
    slot is now marked free although booking 2 is confirmed, and player 30 can book it
    (booking 3): two confirmed bookings hold one slot.
   */
  lemma RepeatedCancelBreaksFlags()
    ensures var empty := Db(map[1 := Turf(7, "Arena", 500)], map[1 := Slot(1, 0, 600, 660, false)], map[]);
            var booked := Book(empty, 1, 10, 1).db;
            var cancelled := CancelRequest(booked, 1, 10).db;
            var rebooked := Book(cancelled, 1, 20, 2).db;
            var again := CancelRequest(rebooked, 1, 10);
            var third := Book(again.db, 1, 30, 3);
            && WellFormed(empty) && Consistent(empty)
            && Consistent(rebooked)
            && again.outcome == Done
            && !again.db.slots[1].isBooked && again.db.bookings[2].status == Confirmed
            && !Consistent(again.db)
            && third.outcome == Created(3)
            && third.db.bookings[2].status == Confirmed && third.db.bookings[3].status == Confirmed
            && third.db.bookings[2].slotId == third.db.bookings[3].slotId
  {
    var empty := Db(map[1 := Turf(7, "Arena", 500)], map[1 := Slot(1, 0, 600, 660, false)], map[]);
    var booked := Book(empty, 1, 10, 1).db;
    var cancelled := CancelRequest(booked, 1, 10).db;
    var rebooked := Book(cancelled, 1, 20, 2).db;
    var again := CancelRequest(rebooked, 1, 10).db;
    assert cancelled.bookings == map[1 := Booking(10, 1, 1, Cancelled)];
    assert rebooked.bookings == map[1 := Booking(10, 1, 1, Cancelled), 2 := Booking(20, 1, 1, Confirmed)];
    assert rebooked.slots == map[1 := Slot(1, 0, 600, 660, true)];
    assert HasConfirmed(again.bookings, 1) by {
      assert again.bookings[2].slotId == 1 && again.bookings[2].status == Confirmed;
    }
  }

  /**
    The corrected cancel: the same as cancel_booking, except that a booking that is
    already cancelled stays as it is and the request reports AlreadyCancelled.
   */
  function CancelRequestIfConfirmed(db: Db, bookingId: nat, userId: nat): (step: Step)
  {
    if bookingId !in db.bookings then Step(db, NotFound)
    else if db.bookings[bookingId].userId != userId then Step(db, Forbidden)
    else if db.bookings[bookingId].status == Cancelled then Step(db, AlreadyCancelled)
    else Step(CancelRecord(db, bookingId), Done)
  }

  /** The corrected cancel keeps both invariants whatever the booking's status. */
  lemma CancelIfConfirmedKeepsConsistent(db: Db, bookingId: nat, userId: nat)
    requires WellFormed(db)
    ensures WellFormed(CancelRequestIfConfirmed(db, bookingId, userId).db)
    ensures Consistent(db) ==> Consistent(CancelRequestIfConfirmed(db, bookingId, userId).db)
  {
    if bookingId in db.bookings && db.bookings[bookingId].userId == userId
       && db.bookings[bookingId].status == Confirmed {
      CancelRecordKeepsWellFormed(db, bookingId);
      if Consistent(db) {
        CancelConfirmedKeepsConsistent(db, bookingId);
      }
    }
  }

  /** cancel_booking performed in place, as written (the slot is freed first, then the status set). */
  method CancelBooking(store: Store, bookingId: nat, userId: nat) returns (outcome: Outcome)
    requires store.Valid()
    modifies store
    ensures store.Valid()
    ensures var step := CancelRequest(old(store.Snapshot()), bookingId, userId);
            store.Snapshot() == step.db && outcome == step.outcome
    ensures store.nextTurfId == old(store.nextTurfId) && store.nextSlotId == old(store.nextSlotId)
    ensures store.nextBookingId == old(store.nextBookingId)
    ensures old(Consistent(store.Snapshot()) && bookingId in store.bookings && store.bookings[bookingId].status == Confirmed)
            ==> Consistent(store.Snapshot())
  {
    ghost var before := store.Snapshot();
    if bookingId !in store.bookings {
      return NotFound;
    }
    var booking := store.bookings[bookingId];
    if booking.userId != userId {
      return Forbidden;
    }
    if booking.slotId in store.slots {
      store.slots := store.slots[booking.slotId := store.slots[booking.slotId].(isBooked := false)];
    }
    store.bookings := store.bookings[bookingId := booking.(status := Cancelled)];
    CancelKeepsInvariants(before, bookingId, userId);
    outcome := Done;
  }

  /** The corrected cancel performed in place; it keeps both invariants unconditionally. */
  method CancelConfirmedBooking(store: Store, bookingId: nat, userId: nat) returns (outcome: Outcome)
    requires store.Valid()
    modifies store
    ensures store.Valid()
    ensures var step := CancelRequestIfConfirmed(old(store.Snapshot()), bookingId, userId);
            store.Snapshot() == step.db && outcome == step.outcome
    ensures store.nextTurfId == old(store.nextTurfId) && store.nextSlotId == old(store.nextSlotId)
    ensures store.nextBookingId == old(store.nextBookingId)
    ensures old(Consistent(store.Snapshot())) ==> Consistent(store.Snapshot())
  {
    ghost var before := store.Snapshot();
    if bookingId !in store.bookings {
      return NotFound;
    }
    var booking := store.bookings[bookingId];
    if booking.userId != userId {
      return Forbidden;
    }
    if booking.status == Cancelled {
      return AlreadyCancelled;
    }
    store.Cancel(bookingId);
    CancelIfConfirmedKeepsConsistent(before, bookingId, userId);
    outcome := Done;
  }
}
