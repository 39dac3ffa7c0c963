/**
  The entities of the turf booking application (turfs, slots, bookings) as values,
  the rules that turf_app/models.py attaches to them (the half-open overlap test,
  cancelling a booking, the cascading deletes, a turf's revenue) and the invariants
  the stored rows are meant to satisfy.

  Times are minutes since midnight, dates are day numbers and prices are whole
  currency units. A stored table is a map from row id to row.
 */
module Models {

  /** Status of a booking; a new booking is confirmed, cancelling is terminal. */
  datatype Status = Confirmed | Cancelled

  /** A turf listing: its owner, its name and its hourly price. */
  datatype Turf = Turf(ownerId: nat, name: string, price: int)

  /** A slot of one turf on one day, covering the minutes [start, end). */
  datatype Slot = Slot(turfId: nat, date: int, start: int, end: int, isBooked: bool)

  /** A player's reservation of one slot of one turf. */
  datatype Booking = Booking(userId: nat, turfId: nat, slotId: nat, status: Status)

  /** The three stored tables. */
  datatype Db = Db(turfs: map<nat, Turf>, slots: map<nat, Slot>, bookings: map<nat, Booking>)

  /** Why a request was refused as invalid. */
  datatype Problem = MissingField | BadFormat | EndNotAfterStart | NameRequired

  /** What a request handler reports back to the page it redirects to. */
  datatype Outcome =
    | Done
    | Created(id: nat)
    | NotFound
    | Forbidden
    | AlreadyBooked
    | AlreadyCancelled
    | Overlap
    | Invalid(problem: Problem)

  /** The tables after a request, and what the request reported. */
  datatype Step = Step(db: Db, outcome: Outcome)

  // ---------------------------------------------------------------------------
  // Slot.overlaps_with
  // ---------------------------------------------------------------------------

  /** The existing range [start, end) and the candidate [otherStart, otherEnd) overlap. */
  predicate Overlaps(start: int, end: int, otherStart: int, otherEnd: int)
  {
    !(end <= otherStart || start >= otherEnd)
  }

  /** Minute m lies in the half-open range [start, end). */
  predicate Covers(start: int, end: int, m: int)
  {
    start <= m < end
  }

  /** Two proper ranges overlap exactly when some minute lies in both. */
  lemma OverlapsIffSharedMinute(start: int, end: int, otherStart: int, otherEnd: int)
    requires start < end && otherStart < otherEnd
    ensures Overlaps(start, end, otherStart, otherEnd)
            <==> exists m :: Covers(start, end, m) && Covers(otherStart, otherEnd, m)
  {
    if Overlaps(start, end, otherStart, otherEnd) {
      var m := if start < otherStart then otherStart else start;
      assert Covers(start, end, m) && Covers(otherStart, otherEnd, m);
    }
  }

  /**
    Without start < end the equivalence fails: the inverted range [5, 3) overlaps
    [0, 10) by the test, yet holds no minute at all.
   */
  lemma ImproperRangeOverlapsWithoutSharedMinute()
    ensures Overlaps(5, 3, 0, 10)
    ensures !exists m :: Covers(5, 3, m) && Covers(0, 10, m)
  {
  }

  /** Swapping the existing range and the candidate gives the same answer. */
  lemma OverlapsSymmetric(start: int, end: int, otherStart: int, otherEnd: int)
    ensures Overlaps(start, end, otherStart, otherEnd) == Overlaps(otherStart, otherEnd, start, end)
  {
  }

  /** Ranges that only touch (or are apart) do not overlap. */
  lemma TouchingRangesDoNotOverlap(start: int, end: int, otherStart: int, otherEnd: int)
    requires end <= otherStart || start >= otherEnd
    ensures !Overlaps(start, end, otherStart, otherEnd)
  {
  }

  /** A proper range overlaps itself. */
  lemma ProperRangeOverlapsItself(start: int, end: int)
    requires start < end
    ensures Overlaps(start, end, start, end)
  {
  }

  // ---------------------------------------------------------------------------
  // Invariants of the stored tables
  // ---------------------------------------------------------------------------

  /** Two slots belong to the same turf and the same day. */
  predicate SameDay(a: Slot, b: Slot)
  {
    a.turfId == b.turfId && a.date == b.date
  }

  /** The slots of one turf on one day are pairwise non-overlapping. */
  ghost predicate NoOverlaps(slots: map<nat, Slot>)
  {
    forall i, j :: i in slots && j in slots && i != j && SameDay(slots[i], slots[j]) ==>
      !Overlaps(slots[i].start, slots[i].end, slots[j].start, slots[j].end)
  }

  /** Every slot belongs to a stored turf and has start strictly before end. */
  ghost predicate SlotsAttached(db: Db)
  {
    forall s :: s in db.slots ==> db.slots[s].turfId in db.turfs && db.slots[s].start < db.slots[s].end
  }

  /** Every booking refers to a stored slot, and to that slot's turf. */
  ghost predicate BookingsAttached(db: Db)
  {
    forall b :: b in db.bookings ==>
      db.bookings[b].slotId in db.slots && db.bookings[b].turfId == db.slots[db.bookings[b].slotId].turfId
  }

  /** Referential integrity, proper ranges and no overlap: what every request keeps. */
  ghost predicate WellFormed(db: Db)
  {
    SlotsAttached(db) && BookingsAttached(db) && NoOverlaps(db.slots)
  }

  /** Some confirmed booking holds the slot. */
  ghost predicate HasConfirmed(bookings: map<nat, Booking>, slotId: nat)
  {
    exists b :: b in bookings && bookings[b].slotId == slotId && bookings[b].status == Confirmed
  }

  /** A slot's is_booked flag is set exactly when a confirmed booking holds it. */
  ghost predicate FlagsAgree(db: Db)
  {
    forall s :: s in db.slots ==> (db.slots[s].isBooked <==> HasConfirmed(db.bookings, s))
  }

  /** No slot is held by two confirmed bookings. */
  ghost predicate SingleConfirmed(bookings: map<nat, Booking>)
  {
    forall a, b ::
      && a in bookings && b in bookings
      && bookings[a].status == Confirmed && bookings[b].status == Confirmed
      && bookings[a].slotId == bookings[b].slotId
      ==> a == b
  }

  /** The booking state and the slot flags tell the same story. */
  ghost predicate Consistent(db: Db)
  {
    FlagsAgree(db) && SingleConfirmed(db.bookings)
  }

  // ---------------------------------------------------------------------------
  // Booking.cancel
  // ---------------------------------------------------------------------------

  /** The tables after Booking.cancel: the booking is cancelled and its slot, if stored, freed. */
  function CancelRecord(db: Db, id: nat): (after: Db)
    requires id in db.bookings
  {
    var b := db.bookings[id];
    var slots := if b.slotId in db.slots
                 then db.slots[b.slotId := db.slots[b.slotId].(isBooked := false)]
                 else db.slots;
    db.(slots := slots, bookings := db.bookings[id := b.(status := Cancelled)])
  }

  /** Cancelling leaves the booking cancelled and its slot free; doing it twice is doing it once. */
  lemma CancelRecordIdempotent(db: Db, id: nat)
    requires id in db.bookings
    ensures var once := CancelRecord(db, id);
            && once.bookings[id].status == Cancelled
            && (db.bookings[id].slotId in once.slots ==> !once.slots[db.bookings[id].slotId].isBooked)
            && CancelRecord(once, id) == once
  {
    var once := CancelRecord(db, id);
    var b := db.bookings[id];
    assert once.bookings[id] == b.(status := Cancelled);
    if b.slotId in db.slots {
      assert once.slots[b.slotId] == db.slots[b.slotId].(isBooked := false);
      assert CancelRecord(once, id).slots == once.slots;
    }
    assert CancelRecord(once, id).bookings == once.bookings;
  }

  /** Cancelling changes no reference, date or time, so it keeps the tables well formed. */
  lemma CancelRecordKeepsWellFormed(db: Db, id: nat)
    requires WellFormed(db) && id in db.bookings
    ensures WellFormed(CancelRecord(db, id))
  {
    var after := CancelRecord(db, id);
    assert after.slots.Keys == db.slots.Keys;
    forall s | s in after.slots
      ensures after.slots[s].turfId == db.slots[s].turfId && after.slots[s].date == db.slots[s].date
      ensures after.slots[s].start == db.slots[s].start && after.slots[s].end == db.slots[s].end
    {
    }
  }

  /** Cancelling a CONFIRMED booking keeps the flags in step with the bookings. */
  lemma CancelConfirmedKeepsConsistent(db: Db, id: nat)
    requires WellFormed(db) && Consistent(db)
    requires id in db.bookings && db.bookings[id].status == Confirmed
    ensures Consistent(CancelRecord(db, id))
  {
    var after := CancelRecord(db, id);
    var freed := db.bookings[id].slotId;
    assert freed in db.slots;
    forall s | s in after.slots
      ensures after.slots[s].isBooked <==> HasConfirmed(after.bookings, s)
    {
      if s == freed {
        forall b | b in after.bookings && after.bookings[b].slotId == s
          ensures after.bookings[b].status == Cancelled
        {
          if b != id {
            assert after.bookings[b] == db.bookings[b];
          }
        }
      } else {
        if HasConfirmed(db.bookings, s) {
          var b :| b in db.bookings && db.bookings[b].slotId == s && db.bookings[b].status == Confirmed;
          assert after.bookings[b] == db.bookings[b];
        }
        if HasConfirmed(after.bookings, s) {
          var b :| b in after.bookings && after.bookings[b].slotId == s && after.bookings[b].status == Confirmed;
          assert after.bookings[b] == db.bookings[b];
        }
      }
    }
  }

  // ---------------------------------------------------------------------------
  // Cascading deletes (relationships with cascade='all, delete-orphan')
  // ---------------------------------------------------------------------------

  /** The tables after deleting a slot: the slot and the bookings that refer to it go. */
  function DeleteSlotRows(db: Db, id: nat): (after: Db)
  {
    db.(slots := db.slots - {id},
        bookings := map b | b in db.bookings && db.bookings[b].slotId != id :: db.bookings[b])
  }

  /**
    The tables after deleting a slot through its one-to-one booking relationship
    (uselist=False): the slot goes, but of the bookings that refer to it only the one
    the mapper loaded as the slot's booking goes with it.
   */
  function DeleteSlotLoadedRows(db: Db, id: nat, loaded: nat): (after: Db)
  {
    db.(slots := db.slots - {id},
        bookings := if loaded in db.bookings && db.bookings[loaded].slotId == id
                    then db.bookings - {loaded}
                    else db.bookings)
  }

  /** No booking other than the loaded one refers to the slot. */
  ghost predicate OnlyBookingOf(bookings: map<nat, Booking>, slotId: nat, loaded: nat)
  {
    forall b :: b in bookings && bookings[b].slotId == slotId ==> b == loaded
  }

  /**
    While the loaded booking is the only one that refers to the slot (the slot was never
    re-booked after a cancel), the one-to-one delete is the full cascade.
   */
  lemma LoadedDeleteAgreesWithSingleBooking(db: Db, id: nat, loaded: nat)
    requires OnlyBookingOf(db.bookings, id, loaded)
    ensures DeleteSlotLoadedRows(db, id, loaded) == DeleteSlotRows(db, id)
  {
    var cascaded := DeleteSlotRows(db, id).bookings;
    if loaded in db.bookings && db.bookings[loaded].slotId == id {
      assert cascaded == db.bookings - {loaded};
    } else {
      assert cascaded == db.bookings;
    }
  }

  /** The tables after deleting a turf: the turf, its slots and its bookings go. */
  function DeleteTurfRows(db: Db, id: nat): (after: Db)
  {
    Db(db.turfs - {id},
       map s | s in db.slots && db.slots[s].turfId != id :: db.slots[s],
       map b | b in db.bookings && db.bookings[b].turfId != id :: db.bookings[b])
  }

  /**
    Deleting a slot leaves no booking that refers to it, keeps every other row as it
    was, and keeps both invariants.
   */
  lemma DeleteSlotRowsKeepsInvariants(db: Db, id: nat)
    requires WellFormed(db)
    ensures var after := DeleteSlotRows(db, id);
            && id !in after.slots
            && (forall b :: b in after.bookings ==> after.bookings[b].slotId != id)
            && (forall b :: b in db.bookings && db.bookings[b].slotId != id ==> b in after.bookings)
            && WellFormed(after)
            && (Consistent(db) ==> Consistent(after))
  {
    var after := DeleteSlotRows(db, id);
    if Consistent(db) {
      forall s | s in after.slots
        ensures after.slots[s].isBooked <==> HasConfirmed(after.bookings, s)
      {
        if HasConfirmed(db.bookings, s) {
          var b :| b in db.bookings && db.bookings[b].slotId == s && db.bookings[b].status == Confirmed;
          assert b in after.bookings;
        }
      }
    }
  }

  /**
    Deleting a turf leaves no slot and no booking of it, keeps every row of other
    turfs as it was, and keeps both invariants.
   */
  lemma DeleteTurfRowsKeepsInvariants(db: Db, id: nat)
    requires WellFormed(db)
    ensures var after := DeleteTurfRows(db, id);
            && id !in after.turfs
            && (forall s :: s in after.slots ==> after.slots[s].turfId != id)
            && (forall b :: b in after.bookings ==> after.bookings[b].turfId != id)
            && (forall s :: s in db.slots && db.slots[s].turfId != id ==> s in after.slots)
            && (forall b :: b in db.bookings && db.bookings[b].turfId != id ==> b in after.bookings)
            && WellFormed(after)
            && (Consistent(db) ==> Consistent(after))
  {
    var after := DeleteTurfRows(db, id);
    forall b | b in after.bookings
      ensures after.bookings[b].slotId in after.slots
    {
      assert db.slots[db.bookings[b].slotId].turfId == db.bookings[b].turfId;
    }
    if Consistent(db) {
      forall s | s in after.slots
        ensures after.slots[s].isBooked <==> HasConfirmed(after.bookings, s)
      {
        if HasConfirmed(db.bookings, s) {
          var b :| b in db.bookings && db.bookings[b].slotId == s && db.bookings[b].status == Confirmed;
          assert db.bookings[b].turfId == db.slots[s].turfId;
          assert b in after.bookings;
        }
      }
    }
  }

  /** The slots of one turf (the turf's slots relationship). */
  function SlotsOf(slots: map<nat, Slot>, turfId: nat): (slotIds: set<nat>)
  {
    set id | id in slots && slots[id].turfId == turfId
  }

  // ---------------------------------------------------------------------------
  // Turf.total_revenue
  // ---------------------------------------------------------------------------

  /** The bookings of a turf whose status is confirmed. */
  function ConfirmedOf(bookings: map<nat, Booking>, turfId: nat): (confirmed: set<nat>)
  {
    set b | b in bookings && bookings[b].turfId == turfId && bookings[b].status == Confirmed
  }

  /** The SQL sum of the turf's price over a set of joined booking rows. */
  ghost function PriceSum(rows: set<nat>, price: int): (total: int)
    decreases rows
  {
    if rows == {} then 0 else var b :| b in rows; price + PriceSum(rows - {b}, price)
  }

  /** A turf's revenue: its price summed once per confirmed booking of it. */
  ghost function TotalRevenue(db: Db, turfId: nat): (revenue: int)
    requires turfId in db.turfs
  {
    PriceSum(ConfirmedOf(db.bookings, turfId), db.turfs[turfId].price)
  }

  /** Summing the price once per row is multiplying it by the number of rows. */
  lemma {:induction false} PriceSumIsProduct(rows: set<nat>, price: int)
    ensures PriceSum(rows, price) == price * |rows|
    decreases rows
  {
    if rows != {} {
      var b :| b in rows && PriceSum(rows, price) == price + PriceSum(rows - {b}, price);
      PriceSumIsProduct(rows - {b}, price);
      assert |rows - {b}| == |rows| - 1;
      assert price * |rows| == price + price * (|rows| - 1);
    }
  }

  /**
    A turf's revenue is its price times its number of confirmed bookings; it is 0
    when there are none.
   */
  lemma TotalRevenueIsPriceTimesConfirmed(db: Db, turfId: nat)
    requires turfId in db.turfs
    ensures TotalRevenue(db, turfId) == db.turfs[turfId].price * |ConfirmedOf(db.bookings, turfId)|
    ensures ConfirmedOf(db.bookings, turfId) == {} ==> TotalRevenue(db, turfId) == 0
  {
    PriceSumIsProduct(ConfirmedOf(db.bookings, turfId), db.turfs[turfId].price);
  }

  /**
    Adding a booking that is cancelled or belongs to another turf does not change a
    turf's revenue.
   */
  lemma RevenueIgnoresOtherRows(db: Db, turfId: nat, id: nat, row: Booking)
    requires turfId in db.turfs && id !in db.bookings
    requires row.turfId != turfId || row.status == Cancelled
    ensures TotalRevenue(db.(bookings := db.bookings[id := row]), turfId) == TotalRevenue(db, turfId)
  {
    var after := db.(bookings := db.bookings[id := row]);
    assert ConfirmedOf(after.bookings, turfId) == ConfirmedOf(db.bookings, turfId);
  }
}
