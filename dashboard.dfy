/**
  The owner dashboard of turf_app/main.py (owner_dashboard): over the owner's turfs it
  sums the revenue, the number of confirmed bookings and the number of slots, and
  derives the utilization, which is 0 when there are no slots. The sums run turf by
  turf, as the page computes them; the lemmas relate them to plain counts of rows.
 */
module Dashboard {
  import opened Models

  /** The turfs listed by one owner. */
  function OwnedTurfs(db: Db, ownerId: nat): (owned: set<nat>)
  {
    set t | t in db.turfs && db.turfs[t].ownerId == ownerId
  }

  /** The confirmed bookings of any of the given turfs. */
  function ConfirmedIn(bookings: map<nat, Booking>, turfIds: set<nat>): (confirmed: set<nat>)
  {
    set b | b in bookings && bookings[b].turfId in turfIds && bookings[b].status == Confirmed
  }

  /** The slots of any of the given turfs. */
  function SlotsIn(slots: map<nat, Slot>, turfIds: set<nat>): (slotIds: set<nat>)
  {
    set s | s in slots && slots[s].turfId in turfIds
  }

  /** Turf by turf, the number of confirmed bookings. */
  ghost function ConfirmedSum(db: Db, turfIds: set<nat>): (total: nat)
    decreases turfIds
  {
    if turfIds == {} then 0
    else var t :| t in turfIds; |ConfirmedOf(db.bookings, t)| + ConfirmedSum(db, turfIds - {t})
  }

  /** Turf by turf, the number of slots. */
  ghost function SlotSum(db: Db, turfIds: set<nat>): (total: nat)
    decreases turfIds
  {
    if turfIds == {} then 0
    else var t :| t in turfIds; |SlotsOf(db.slots, t)| + SlotSum(db, turfIds - {t})
  }

  /** Turf by turf, the revenue. */
  ghost function RevenueSum(db: Db, turfIds: set<nat>): (revenue: int)
    requires turfIds <= db.turfs.Keys
    decreases turfIds
  {
    if turfIds == {} then 0
    else var t :| t in turfIds; TotalRevenue(db, t) + RevenueSum(db, turfIds - {t})
  }

  /** Utilization: 0 without slots, else confirmed bookings out of slots (as a percentage). */
  datatype Utilization = Zero | Percent(confirmed: nat, slots: nat)

  function UtilizationOf(confirmed: nat, slots: nat): (utilization: Utilization)
  {
    if slots == 0 then Zero else Percent(confirmed, slots)
  }

  /** What the dashboard shows, or that the user is not an owner. */
  datatype View = Denied | Figures(totalRevenue: int, totalBookings: nat, utilization: Utilization)

  /** owner_dashboard for one user. */
  ghost function OwnerDashboard(db: Db, userId: nat, isOwner: bool): (view: View)
  {
    if !isOwner then Denied
    else
      var owned := OwnedTurfs(db, userId);
      var bookings := ConfirmedSum(db, owned);
      Figures(RevenueSum(db, owned), bookings, UtilizationOf(bookings, SlotSum(db, owned)))
  }

  /** Summing turf by turf counts each confirmed booking of those turfs once. */
  lemma {:induction false} ConfirmedSumCountsBookings(db: Db, turfIds: set<nat>)
    ensures ConfirmedSum(db, turfIds) == |ConfirmedIn(db.bookings, turfIds)|
    decreases turfIds
  {
    if turfIds == {} {
      assert ConfirmedIn(db.bookings, turfIds) == {};
    } else {
      var t :| t in turfIds && ConfirmedSum(db, turfIds)
               == |ConfirmedOf(db.bookings, t)| + ConfirmedSum(db, turfIds - {t});
      ConfirmedSumCountsBookings(db, turfIds - {t});
      var rest := ConfirmedIn(db.bookings, turfIds - {t});
      assert ConfirmedIn(db.bookings, turfIds) == ConfirmedOf(db.bookings, t) + rest;
      assert ConfirmedOf(db.bookings, t) !! rest;
    }
  }

  /** Summing turf by turf counts each slot of those turfs once. */
  lemma {:induction false} SlotSumCountsSlots(db: Db, turfIds: set<nat>)
    ensures SlotSum(db, turfIds) == |SlotsIn(db.slots, turfIds)|
    decreases turfIds
  {
    if turfIds == {} {
      assert SlotsIn(db.slots, turfIds) == {};
    } else {
      var t :| t in turfIds && SlotSum(db, turfIds) == |SlotsOf(db.slots, t)| + SlotSum(db, turfIds - {t});
      SlotSumCountsSlots(db, turfIds - {t});
      var rest := SlotsIn(db.slots, turfIds - {t});
      assert SlotsIn(db.slots, turfIds) == SlotsOf(db.slots, t) + rest;
      assert SlotsOf(db.slots, t) !! rest;
    }
  }

  /** Turfs without confirmed bookings earn nothing. */
  lemma {:induction false} RevenueSumZeroWithoutBookings(db: Db, turfIds: set<nat>)
    requires turfIds <= db.turfs.Keys
    requires ConfirmedIn(db.bookings, turfIds) == {}
    ensures RevenueSum(db, turfIds) == 0
    decreases turfIds
  {
    if turfIds != {} {
      var t :| t in turfIds && RevenueSum(db, turfIds) == TotalRevenue(db, t) + RevenueSum(db, turfIds - {t});
      assert ConfirmedOf(db.bookings, t) <= ConfirmedIn(db.bookings, turfIds);
      TotalRevenueIsPriceTimesConfirmed(db, t);
      assert ConfirmedIn(db.bookings, turfIds - {t}) <= ConfirmedIn(db.bookings, turfIds);
      RevenueSumZeroWithoutBookings(db, turfIds - {t});
    }
  }

  /** The slots held by a set of bookings. */
  function HeldSlots(bookings: map<nat, Booking>, rows: set<nat>): (held: set<nat>)
    requires rows <= bookings.Keys
  {
    set b | b in rows :: bookings[b].slotId
  }

  /** Distinct confirmed bookings hold distinct slots. */
  lemma {:induction false} HeldSlotsOfConfirmed(bookings: map<nat, Booking>, rows: set<nat>)
    requires SingleConfirmed(bookings)
    requires forall b :: b in rows ==> b in bookings && bookings[b].status == Confirmed
    ensures |HeldSlots(bookings, rows)| == |rows|
    decreases rows
  {
    if rows != {} {
      var b :| b in rows;
      HeldSlotsOfConfirmed(bookings, rows - {b});
      assert HeldSlots(bookings, rows) == HeldSlots(bookings, rows - {b}) + {bookings[b].slotId};
      assert bookings[b].slotId !in HeldSlots(bookings, rows - {b});
    }
  }

  /**
    While each slot is held by at most one confirmed booking, the confirmed bookings of
    a set of turfs are no more than their slots: utilization stays at most 100%.
   */
  lemma ConfirmedAtMostSlots(db: Db, turfIds: set<nat>)
    requires WellFormed(db) && SingleConfirmed(db.bookings)
    ensures |ConfirmedIn(db.bookings, turfIds)| <= |SlotsIn(db.slots, turfIds)|
  {
    var confirmed := ConfirmedIn(db.bookings, turfIds);
    HeldSlotsOfConfirmed(db.bookings, confirmed);
    var held := HeldSlots(db.bookings, confirmed);
    assert held <= SlotsIn(db.slots, turfIds) by {
      forall s | s in held
        ensures s in SlotsIn(db.slots, turfIds)
      {
        var b :| b in confirmed && db.bookings[b].slotId == s;
        assert db.slots[s].turfId == db.bookings[b].turfId;
      }
    }
    SubsetNoLarger(held, SlotsIn(db.slots, turfIds));
  }

  /**
    Owner 7 with two booked slots of turf 1. Slot 1 was booked by player 10, cancelled,
    and re-booked by player 20; slot 2 is booked by player 30.
   */
  const RebookedTables: Db :=
    Db(map[1 := Turf(7, "Arena", 500)],
       map[1 := Slot(1, 0, 600, 660, true), 2 := Slot(1, 0, 660, 720, true)],
       map[1 := Booking(10, 1, 1, Cancelled), 2 := Booking(20, 1, 1, Confirmed),
           3 := Booking(30, 1, 2, Confirmed)])

  /** These tables satisfy both invariants. */
  lemma RebookedTablesKeepInvariants()
    ensures WellFormed(RebookedTables) && Consistent(RebookedTables)
  {
    var db := RebookedTables;
    forall i, j | i in db.slots && j in db.slots && i != j
      ensures !Overlaps(db.slots[i].start, db.slots[i].end, db.slots[j].start, db.slots[j].end)
    {
    }
    assert db.bookings[2].slotId == 1 && db.bookings[3].slotId == 2;
  }

  /** The owner's view of some tables whose only turf, 1, belongs to owner 7. */
  lemma OwnerSevenUtilization(db: Db, confirmed: nat, slots: nat)
    requires db.turfs == RebookedTables.turfs
    requires |ConfirmedIn(db.bookings, {1})| == confirmed && |SlotsIn(db.slots, {1})| == slots && slots > 0
    ensures OwnerDashboard(db, 7, true).utilization == Percent(confirmed, slots)
  {
    assert OwnedTurfs(db, 7) == {1};
    ConfirmedSumCountsBookings(db, {1});
    SlotSumCountsSlots(db, {1});
  }

  /**
    Deleting slot 1 through the one-to-one relationship removes only the booking the
    mapper loaded (the first one); player 20's booking refers to no slot yet still
    counts, and the dashboard shows 2 confirmed bookings over 1 slot.
   */
  lemma OrphanedBookingOverfillsUtilization()
    ensures var after := DeleteSlotLoadedRows(RebookedTables, 1, 1);
            && !WellFormed(after)
            && OwnerDashboard(after, 7, true).utilization == Percent(2, 1)
  {
    var after := DeleteSlotLoadedRows(RebookedTables, 1, 1);
    assert after.bookings == map[2 := Booking(20, 1, 1, Confirmed), 3 := Booking(30, 1, 2, Confirmed)];
    assert after.slots == map[2 := Slot(1, 0, 660, 720, true)];
    assert after.bookings[2].slotId !in after.slots;
    assert ConfirmedIn(after.bookings, {1}) == {2, 3};
    assert SlotsIn(after.slots, {1}) == {2};
    OwnerSevenUtilization(after, 2, 1);
  }

  /** Deleting every booking of slot 1 with it, as DeleteSlotRows does, shows 1 over 1. */
  lemma CascadedDeleteKeepsUtilization()
    ensures var after := DeleteSlotRows(RebookedTables, 1);
            && WellFormed(after) && Consistent(after)
            && OwnerDashboard(after, 7, true).utilization == Percent(1, 1)
  {
    RebookedTablesKeepInvariants();
    DeleteSlotRowsKeepsInvariants(RebookedTables, 1);
    var after := DeleteSlotRows(RebookedTables, 1);
    assert after.bookings == map[3 := Booking(30, 1, 2, Confirmed)];
    assert after.slots == map[2 := Slot(1, 0, 660, 720, true)];
    assert ConfirmedIn(after.bookings, {1}) == {3};
    assert SlotsIn(after.slots, {1}) == {2};
    OwnerSevenUtilization(after, 1, 1);
  }

  /** A subset has no more elements than its superset. */
  lemma {:induction false} SubsetNoLarger(small: set<nat>, large: set<nat>)
    requires small <= large
    ensures |small| <= |large|
  {
    assert large == small + (large - small);
  }

  /**
    The dashboard: non-owners are refused; an owner sees the number of confirmed
    bookings of their turfs, utilization 0 exactly when those turfs have no slots and
    otherwise confirmed bookings over slots, and no revenue without confirmed
    bookings. While the booking state is consistent, utilization is at most 100%.
   */
  lemma DashboardFigures(db: Db, userId: nat)
    ensures OwnerDashboard(db, userId, false) == Denied
    ensures var owned := OwnedTurfs(db, userId);
            var view := OwnerDashboard(db, userId, true);
            && view.Figures?
            && view.totalBookings == |ConfirmedIn(db.bookings, owned)|
            && (view.utilization == Zero <==> SlotsIn(db.slots, owned) == {})
            && (view.utilization.Percent? ==>
                  view.utilization.confirmed == |ConfirmedIn(db.bookings, owned)|
                  && view.utilization.slots == |SlotsIn(db.slots, owned)|)
            && (ConfirmedIn(db.bookings, owned) == {} ==> view.totalRevenue == 0)
            && (WellFormed(db) && Consistent(db) && view.utilization.Percent? ==>
                  view.utilization.confirmed <= view.utilization.slots)
  {
    var owned := OwnedTurfs(db, userId);
    ConfirmedSumCountsBookings(db, owned);
    SlotSumCountsSlots(db, owned);
    if ConfirmedIn(db.bookings, owned) == {} {
      RevenueSumZeroWithoutBookings(db, owned);
    }
    if WellFormed(db) && Consistent(db) {
      ConfirmedAtMostSlots(db, owned);
    }
  }
}
