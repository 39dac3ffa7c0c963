/**
  An owner's requests in turf_app/main.py: listing a turf (add_turf), adding a slot
  with its overlap check (add_slot), and deleting a slot or a turf (delete_slot,
  delete_turf). Each request is given as a function from the tables before to the
  tables after, and as a method that performs it in place on the store.

  The form fields of a request arrive already read. A field is blank, malformed (the
  date or time parser would raise), or parsed into a day number, a minute of the day
  or a price.
 */
module Management {
  import opened Models
  import opened Persistence

  /** A submitted form field. */
  datatype Field = Blank | Malformed | Parsed(value: int)

  /** The price a new turf is listed at when the form leaves it blank. */
  const DefaultPrice: int := 500

  // ---------------------------------------------------------------------------
  // add_turf
  // ---------------------------------------------------------------------------

  /**
    add_turf: only owners may list a turf. The price is read before the name is
    checked, so a malformed price is reported even when the name is missing.
   */
  function NewTurf(db: Db, userId: nat, isOwner: bool, name: string, price: Field, newId: nat): (step: Step)
  {
    if !isOwner then Step(db, Forbidden)
    else if price.Malformed? then Step(db, Invalid(BadFormat))
    else if name == "" then Step(db, Invalid(NameRequired))
    else
      var listed := if price.Parsed? then price.value else DefaultPrice;
      Step(db.(turfs := db.turfs[newId := Turf(userId, name, listed)]), Created(newId))
  }

  /** Listing a turf keeps both invariants; a new turf has no slots and no bookings. */
  lemma NewTurfKeepsInvariants(db: Db, userId: nat, isOwner: bool, name: string, price: Field, newId: nat)
    requires WellFormed(db) && newId !in db.turfs
    ensures var after := NewTurf(db, userId, isOwner, name, price, newId).db;
            && WellFormed(after)
            && (Consistent(db) ==> Consistent(after))
            && (forall s :: s in after.slots ==> after.slots[s].turfId != newId)
            && ConfirmedOf(after.bookings, newId) == {}
  {
    forall b | b in db.bookings
      ensures db.bookings[b].turfId != newId
    {
      assert db.slots[db.bookings[b].slotId].turfId in db.turfs;
    }
  }

  /** add_turf performed in place; the new turf takes the next turf id. */
  method AddTurf(store: Store, userId: nat, isOwner: bool, name: string, price: Field) returns (outcome: Outcome)
    requires store.Valid()
    modifies store
    ensures store.Valid()
    ensures var step := NewTurf(old(store.Snapshot()), userId, isOwner, name, price, old(store.nextTurfId));
            store.Snapshot() == step.db && outcome == step.outcome
    ensures store.nextTurfId == old(store.nextTurfId) + (if outcome.Created? then 1 else 0)
    ensures store.nextSlotId == old(store.nextSlotId) && store.nextBookingId == old(store.nextBookingId)
    ensures old(Consistent(store.Snapshot())) ==> Consistent(store.Snapshot())
  {
    ghost var before := store.Snapshot();
    if !isOwner {
      return Forbidden;
    }
    if price.Malformed? {
      return Invalid(BadFormat);
    }
    if name == "" {
      return Invalid(NameRequired);
    }
    var listed := if price.Parsed? then price.value else DefaultPrice;
    var id := store.nextTurfId;
    store.turfs := store.turfs[id := Turf(userId, name, listed)];
    store.nextTurfId := id + 1;
    NewTurfKeepsInvariants(before, userId, isOwner, name, price, id);
    outcome := Created(id);
  }

  // ---------------------------------------------------------------------------
  // add_slot
  // ---------------------------------------------------------------------------

  /** An existing slot stands in the way of the candidate: same turf, same day, overlapping. */
  predicate ClashesWith(slot: Slot, turfId: nat, date: int, start: int, end: int)
  {
    slot.turfId == turfId && slot.date == date && Overlaps(slot.start, slot.end, start, end)
  }

  /** Some slot of the turf stands in the way of the candidate. */
  predicate Clashes(slots: map<nat, Slot>, turfId: nat, date: int, start: int, end: int)
  {
    exists id :: id in slots && ClashesWith(slots[id], turfId, date, start, end)
  }

  /**
    The loop of add_slot over the turf's slots: it stops at the first slot of the same
    day that overlaps the candidate.
   */
  method FindClash(slots: map<nat, Slot>, turfId: nat, date: int, start: int, end: int) returns (clash: bool)
    ensures clash <==> exists id :: id in slots && ClashesWith(slots[id], turfId, date, start, end)
  {
    var pending := SlotsOf(slots, turfId);
    while pending != {}
      invariant pending <= SlotsOf(slots, turfId)
      invariant forall id :: id in SlotsOf(slots, turfId) - pending ==>
                  !ClashesWith(slots[id], turfId, date, start, end)
      decreases pending
    {
      var id :| id in pending;
      if slots[id].date == date && Overlaps(slots[id].start, slots[id].end, start, end) {
        return true;
      }
      pending := pending - {id};
    }
    return false;
  }

  /**
    add_slot: the turf must exist and belong to the user; all three fields must be
    filled, then parse; the range must be proper; and no slot of the turf on that day
    may overlap it. Then one free slot is added (row newId).
   */
  function NewSlot(db: Db, turfId: nat, userId: nat, date: Field, start: Field, end: Field, newId: nat): (step: Step)
  {
    if turfId !in db.turfs then Step(db, NotFound)
    else if db.turfs[turfId].ownerId != userId then Step(db, Forbidden)
    else if date.Blank? || start.Blank? || end.Blank? then Step(db, Invalid(MissingField))
    else if !date.Parsed? || !start.Parsed? || !end.Parsed? then Step(db, Invalid(BadFormat))
    else if start.value >= end.value then Step(db, Invalid(EndNotAfterStart))
    else if Clashes(db.slots, turfId, date.value, start.value, end.value) then Step(db, Overlap)
    else Step(db.(slots := db.slots[newId := Slot(turfId, date.value, start.value, end.value, false)]),
              Created(newId))
  }

  /**
    Adding a slot keeps the slots of each turf and day pairwise non-overlapping, and
    keeps the flags in step: the new slot is free and no booking refers to it.
   */
  lemma NewSlotKeepsInvariants(db: Db, turfId: nat, userId: nat, date: Field, start: Field, end: Field, newId: nat)
    requires WellFormed(db) && newId !in db.slots
    ensures var after := NewSlot(db, turfId, userId, date, start, end, newId).db;
            WellFormed(after) && (Consistent(db) ==> Consistent(after))
  {
    var step := NewSlot(db, turfId, userId, date, start, end, newId);
    if step.outcome.Created? {
      var after := step.db;
      var added := after.slots[newId];
      forall i, j | i in after.slots && j in after.slots && i != j && SameDay(after.slots[i], after.slots[j])
        ensures !Overlaps(after.slots[i].start, after.slots[i].end, after.slots[j].start, after.slots[j].end)
      {
        if i == newId {
          assert !ClashesWith(db.slots[j], turfId, date.value, start.value, end.value);
          OverlapsSymmetric(added.start, added.end, db.slots[j].start, db.slots[j].end);
        } else if j == newId {
          assert !ClashesWith(db.slots[i], turfId, date.value, start.value, end.value);
        }
      }
      if Consistent(db) {
        forall s | s in after.slots
          ensures after.slots[s].isBooked <==> HasConfirmed(after.bookings, s)
        {
          if s == newId {
            forall b | b in db.bookings
              ensures db.bookings[b].slotId != newId
            {
            }
          }
        }
      }
    }
  }

  /** A range whose start is not before its end is refused before any overlap is looked for. */
  lemma NewSlotRefusesImproperRange(db: Db, turfId: nat, userId: nat, date: int, start: int, end: int, newId: nat)
    requires turfId in db.turfs && db.turfs[turfId].ownerId == userId
    requires start >= end
    ensures NewSlot(db, turfId, userId, Parsed(date), Parsed(start), Parsed(end), newId)
            == Step(db, Invalid(EndNotAfterStart))
  {
  }

  /**
    The overlap rule: a proper candidate is refused exactly when some slot of the same
    turf on the same day overlaps it; otherwise exactly one free slot with the given
    turf, date and times is added and no other row changes.
   */
  lemma NewSlotOverlapRule(db: Db, turfId: nat, userId: nat, date: int, start: int, end: int, newId: nat)
    requires turfId in db.turfs && db.turfs[turfId].ownerId == userId
    requires start < end
    ensures var step := NewSlot(db, turfId, userId, Parsed(date), Parsed(start), Parsed(end), newId);
            && (step.outcome == Overlap <==>
                  exists id :: id in db.slots && db.slots[id].turfId == turfId && db.slots[id].date == date
                               && Overlaps(db.slots[id].start, db.slots[id].end, start, end))
            && (step.outcome != Overlap ==>
                  && step.outcome == Created(newId)
                  && step.db.slots == db.slots[newId := Slot(turfId, date, start, end, false)]
                  && step.db.turfs == db.turfs && step.db.bookings == db.bookings)
  {
    var step := NewSlot(db, turfId, userId, Parsed(date), Parsed(start), Parsed(end), newId);
    if step.outcome == Overlap {
      var id :| id in db.slots && ClashesWith(db.slots[id], turfId, date, start, end);
      assert db.slots[id].turfId == turfId && db.slots[id].date == date;
    }
  }

  /**
    Slots on other days never stand in the way of a candidate: dropping them all
    leaves the answer of the overlap check unchanged.
   */
  lemma OtherDaysNeverClash(slots: map<nat, Slot>, turfId: nat, date: int, start: int, end: int)
    ensures var sameDay := map id | id in slots && slots[id].date == date :: slots[id];
            Clashes(slots, turfId, date, start, end) <==> Clashes(sameDay, turfId, date, start, end)
  {
    var sameDay := map id | id in slots && slots[id].date == date :: slots[id];
    if Clashes(slots, turfId, date, start, end) {
      var id :| id in slots && ClashesWith(slots[id], turfId, date, start, end);
      assert id in sameDay && sameDay[id] == slots[id];
    }
    if Clashes(sameDay, turfId, date, start, end) {
      var id :| id in sameDay && ClashesWith(sameDay[id], turfId, date, start, end);
      assert id in slots && slots[id] == sameDay[id];
    }
  }

  /**
    10:00-11:00 on a day is stored; 10:30-11:30 on that day is then refused as
    overlapping, while 11:00-12:00, which only touches it, is accepted.
   */
  lemma TouchingSlotAccepted(db: Db, turfId: nat, userId: nat, day: int, firstId: nat, secondId: nat)
    requires WellFormed(db) && turfId in db.turfs && db.turfs[turfId].ownerId == userId
    requires SlotsOf(db.slots, turfId) == {} && firstId !in db.slots
    ensures var first := NewSlot(db, turfId, userId, Parsed(day), Parsed(600), Parsed(660), firstId);
            && first.outcome == Created(firstId)
            && NewSlot(first.db, turfId, userId, Parsed(day), Parsed(630), Parsed(690), secondId).outcome == Overlap
            && NewSlot(first.db, turfId, userId, Parsed(day), Parsed(660), Parsed(720), secondId).outcome
               == Created(secondId)
  {
    var first := NewSlot(db, turfId, userId, Parsed(day), Parsed(600), Parsed(660), firstId);
    forall id | id in db.slots
      ensures db.slots[id].turfId != turfId
    {
      assert id !in SlotsOf(db.slots, turfId);
    }
    assert first.outcome == Created(firstId);
    assert ClashesWith(first.db.slots[firstId], turfId, day, 630, 690);
    forall id | id in first.db.slots
      ensures !ClashesWith(first.db.slots[id], turfId, day, 660, 720)
    {
    }
  }

  /** add_slot performed in place; the new slot takes the next slot id. */
  method AddSlot(store: Store, turfId: nat, userId: nat, date: Field, start: Field, end: Field)
    returns (outcome: Outcome)
    requires store.Valid()
    modifies store
    ensures store.Valid()
    ensures var step := NewSlot(old(store.Snapshot()), turfId, userId, date, start, end, old(store.nextSlotId));
            store.Snapshot() == step.db && outcome == step.outcome
    ensures store.nextSlotId == old(store.nextSlotId) + (if outcome.Created? then 1 else 0)
    ensures store.nextTurfId == old(store.nextTurfId) && store.nextBookingId == old(store.nextBookingId)
    ensures old(Consistent(store.Snapshot())) ==> Consistent(store.Snapshot())
  {
    ghost var before := store.Snapshot();
    if turfId !in store.turfs {
      return NotFound;
    }
    if store.turfs[turfId].ownerId != userId {
      return Forbidden;
    }
    if date.Blank? || start.Blank? || end.Blank? {
      return Invalid(MissingField);
    }
    if !date.Parsed? || !start.Parsed? || !end.Parsed? {
      return Invalid(BadFormat);
    }
    if start.value >= end.value {
      return Invalid(EndNotAfterStart);
    }
    var clash := FindClash(store.slots, turfId, date.value, start.value, end.value);
    if clash {
      return Overlap;
    }
    var id := store.nextSlotId;
    store.slots := store.slots[id := Slot(turfId, date.value, start.value, end.value, false)];
    store.nextSlotId := id + 1;
    NewSlotKeepsInvariants(before, turfId, userId, date, start, end, id);
    outcome := Created(id);
  }

  // ---------------------------------------------------------------------------
  // delete_slot, delete_turf
  // ---------------------------------------------------------------------------

  /**
    delete_slot, corrected: only the owner of the slot's turf may delete it, and all of
    its bookings go with it.
   */
  function RemoveSlot(db: Db, slotId: nat, userId: nat): (step: Step)
    requires SlotsAttached(db)
  {
    if slotId !in db.slots then Step(db, NotFound)
    else if db.turfs[db.slots[slotId].turfId].ownerId != userId then Step(db, Forbidden)
    else Step(DeleteSlotRows(db, slotId), Done)
  }

  /**
    delete_slot as written: the same checks, but the cascade runs through the slot's
    one-to-one booking relationship and removes only the booking it loaded.
   */
  function RemoveSlotLoaded(db: Db, slotId: nat, userId: nat, loaded: nat): (step: Step)
    requires SlotsAttached(db)
  {
    if slotId !in db.slots then Step(db, NotFound)
    else if db.turfs[db.slots[slotId].turfId].ownerId != userId then Step(db, Forbidden)
    else Step(DeleteSlotLoadedRows(db, slotId, loaded), Done)
  }

  /** delete_turf: only the turf's owner may delete it; its slots and bookings go with it. */
  function RemoveTurf(db: Db, turfId: nat, userId: nat): (step: Step)
  {
    if turfId !in db.turfs then Step(db, NotFound)
    else if db.turfs[turfId].ownerId != userId then Step(db, Forbidden)
    else Step(DeleteTurfRows(db, turfId), Done)
  }

  /** The corrected delete_slot performed in place. */
  method DeleteSlot(store: Store, slotId: nat, userId: nat) returns (outcome: Outcome)
    requires store.Valid()
    modifies store
    ensures store.Valid()
    ensures var step := RemoveSlot(old(store.Snapshot()), slotId, userId);
            store.Snapshot() == step.db && outcome == step.outcome
    ensures store.nextTurfId == old(store.nextTurfId) && store.nextSlotId == old(store.nextSlotId)
    ensures store.nextBookingId == old(store.nextBookingId)
    ensures old(Consistent(store.Snapshot())) ==> Consistent(store.Snapshot())
  {
    if slotId !in store.slots {
      return NotFound;
    }
    if store.turfs[store.slots[slotId].turfId].ownerId != userId {
      return Forbidden;
    }
    store.DeleteSlot(slotId);
    outcome := Done;
  }

  /**
    delete_slot as written, performed in place. The tables stay valid when the slot was
    never re-booked, that is when the loaded booking is the only one that refers to it.
   */
  method DeleteSlotAsWritten(store: Store, slotId: nat, userId: nat, loaded: nat) returns (outcome: Outcome)
    requires store.Valid()
    modifies store
    ensures var step := RemoveSlotLoaded(old(store.Snapshot()), slotId, userId, loaded);
            store.Snapshot() == step.db && outcome == step.outcome
    ensures store.nextTurfId == old(store.nextTurfId) && store.nextSlotId == old(store.nextSlotId)
    ensures store.nextBookingId == old(store.nextBookingId)
    ensures old(OnlyBookingOf(store.bookings, slotId, loaded)) ==> store.Valid()
  {
    if slotId !in store.slots {
      return NotFound;
    }
    if store.turfs[store.slots[slotId].turfId].ownerId != userId {
      return Forbidden;
    }
    store.DeleteSlotLoaded(slotId, loaded);
    outcome := Done;
  }

  /** delete_turf performed in place. */
  method DeleteTurf(store: Store, turfId: nat, userId: nat) returns (outcome: Outcome)
    requires store.Valid()
    modifies store
    ensures store.Valid()
    ensures var step := RemoveTurf(old(store.Snapshot()), turfId, userId);
            store.Snapshot() == step.db && outcome == step.outcome
    ensures store.nextTurfId == old(store.nextTurfId) && store.nextSlotId == old(store.nextSlotId)
    ensures store.nextBookingId == old(store.nextBookingId)
    ensures old(Consistent(store.Snapshot())) ==> Consistent(store.Snapshot())
  {
    if turfId !in store.turfs {
      return NotFound;
    }
    if store.turfs[turfId].ownerId != userId {
      return Forbidden;
    }
    store.DeleteTurf(turfId);
    outcome := Done;
  }
}
