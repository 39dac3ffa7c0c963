# Turf booking: slot and booking state machine

This project models the core of a turf (sports-ground) booking web application.
Owners list turfs and add time slots to them. Players book free slots and cancel
their own bookings. An owner dashboard sums revenue, confirmed bookings and slot
utilization over the owner's turfs.

The model keeps the three tables (turfs, slots, bookings) as maps from row id to row.
Times are minutes since midnight, dates are day numbers and prices are whole currency
units.

- `Models` (models.dfy) holds the entities and the half-open overlap test
  `Slot.overlaps_with`. It also holds `Booking.cancel`, the cascading deletes, a
  turf's revenue, and the two invariants of the stored rows:
  - `WellFormed`: every row refers to stored rows, every slot has start < end, and
    the slots of one turf on one day are pairwise non-overlapping.
  - `Consistent`: a slot's `is_booked` is set exactly when a confirmed booking holds
    it, and no slot is held by two confirmed bookings.
- `Persistence` (store.dfy) is the `Store` class. Its tables and id counters are
  updated in place. Its methods perform `Booking.cancel` and the cascading deletes
  of a slot and of a turf.
- `Reservations` (reservations.dfy) covers `book_slot` and `cancel_booking`.
- `Management` (management.dfy) covers `add_turf`, `add_slot` (with its loop over
  the turf's slots), `delete_slot` and `delete_turf`.
- `Dashboard` (dashboard.dfy) covers the sums of `owner_dashboard`.

Each request is given twice:
- as a function from the tables before the request to the tables and outcome after it;
- as a method that makes the same updates in place on a `Store`.

Each method's postcondition ties the new state to that function and states which
invariants the request keeps. The lemmas beside the functions prove what the
requests promise.

`book_slot` sets `is_booked` in the same commit that creates a confirmed booking
(turf_app/main.py:52-53). `cancel_booking` clears it in the same commit that cancels
the booking (turf_app/main.py:80-84). So the flag is meant to agree with the confirmed
bookings at all times. The code does not always keep that agreement:

- `cancel_booking` does not keep it when a booking is cancelled twice (see Findings).
- The model therefore proves the agreement only for cancelling a confirmed booking.
- It also proves it for a corrected cancel request.

For ranges with start < end, `overlaps_with` holds exactly when the two ranges share a
minute. An inverted range can pass the test without holding any minute, so the
equivalence needs that condition. `add_slot` checks it before it scans for overlaps.

## Model

| member | source | states |
|---|---|---|
| Models.OverlapsIffSharedMinute | turf_app/models.py:87-89 | for proper ranges, `overlaps_with` holds exactly when some minute lies in both half-open ranges |
| Models.ImproperRangeOverlapsWithoutSharedMinute | turf_app/models.py:87-89 | without start < end the equivalence fails: [5, 3) passes the overlap test against [0, 10) yet holds no minute |
| Models.OverlapsSymmetric | turf_app/models.py:89 | swapping the existing range and the candidate range gives the same answer |
| Models.TouchingRangesDoNotOverlap | turf_app/models.py:89 | if end <= other start or start >= other end, the ranges do not overlap (touching is not overlap) |
| Models.ProperRangeOverlapsItself | turf_app/models.py:89 | a range with start < end overlaps itself |
| Models.CancelRecordIdempotent | turf_app/models.py:110-115 | after `Booking.cancel` the booking is cancelled and its stored slot is free; cancelling again changes nothing |
| Models.CancelRecordKeepsWellFormed | turf_app/models.py:110-115 | cancelling changes no reference, date or time, so the tables stay well formed |
| Models.CancelConfirmedKeepsConsistent | turf_app/models.py:110-115 | cancelling a confirmed booking keeps `is_booked` in agreement with the confirmed bookings |
| Models.DeleteSlotRowsKeepsInvariants | turf_app/models.py:85 | deleting a slot removes every booking that refers to it, keeps all other bookings, and keeps both invariants (the corrected cascade; see Findings for the one-to-one relationship as written) |
| Models.LoadedDeleteAgreesWithSingleBooking | turf_app/models.py:85 | while the loaded booking is the only one that refers to the slot, the one-to-one delete equals the full cascade |
| Models.DeleteTurfRowsKeepsInvariants | turf_app/models.py:60-61 | deleting a turf removes all of its slots and bookings, keeps every row of other turfs, and keeps both invariants |
| Models.PriceSumIsProduct | turf_app/models.py:64-65 | summing the price once per joined booking row equals price times the number of rows |
| Models.TotalRevenueIsPriceTimesConfirmed | turf_app/models.py:63-66 | `total_revenue` is the price times the number of the turf's confirmed bookings, and 0 when there are none |
| Models.RevenueIgnoresOtherRows | turf_app/models.py:63-66 | a cancelled booking or another turf's booking adds nothing to a turf's revenue |
| Persistence.Store.Cancel | turf_app/models.py:110-115 | in place: the booking becomes cancelled and its stored slot free; keeps `Valid`, and keeps `Consistent` when the booking was confirmed |
| Persistence.Store.DeleteSlot | turf_app/models.py:85 | in place, the corrected cascade: the slot and every booking that refers to it are removed; keeps both invariants |
| Persistence.Store.DeleteSlotLoaded | turf_app/models.py:85 | in place, as written: the slot and only the loaded booking are removed; the tables stay valid, and consistent, when that booking was the slot's only one |
| Persistence.Store.DeleteTurf | turf_app/models.py:60-61 | in place: the turf, its slots and its bookings are removed; keeps both invariants |
| Reservations.BookKeepsInvariants | turf_app/main.py:43-58 | booking keeps the tables well formed and keeps `is_booked` in agreement with the one confirmed booking per slot |
| Reservations.DoubleBookRefused | turf_app/main.py:48-55 | after a successful booking, a second booking of the slot is refused as already booked, changes nothing, and leaves the first booking confirmed for its player, turf and slot |
| Reservations.BookRaisesRevenue | turf_app/main.py:52-55 | a new confirmed booking adds the turf's price to that turf's revenue, and to no other turf's |
| Reservations.BookSlot | turf_app/main.py:43-58 | in place: unknown slot is NotFound and a booked slot is AlreadyBooked, both changing nothing; a free slot gains exactly one confirmed booking for the player, its turf and itself (next id), and is marked booked; keeps both invariants |
| Reservations.CancelKeepsInvariants | turf_app/main.py:71-88 | cancelling keeps the tables well formed, and keeps `Consistent` when the booking was confirmed |
| Reservations.BookThenCancelFreesSlot | turf_app/main.py:52-85 | booking a free slot and cancelling that booking leaves the slots exactly as before and one extra booking, now cancelled |
| Reservations.CancelLowersRevenue | turf_app/main.py:79-85 | a successful cancel of a confirmed booking takes its price off its turf's revenue; every other cancel request leaves revenue unchanged |
| Reservations.RepeatedCancelBreaksFlags | turf_app/main.py:75-85 | cancelling an already cancelled booking after the slot was re-booked marks the slot free while a confirmed booking holds it; the slot can then be booked twice |
| Reservations.CancelIfConfirmedKeepsConsistent | turf_app/main.py:71-88 | the corrected cancel (already cancelled is refused) keeps both invariants whatever the booking's status |
| Reservations.CancelBooking | turf_app/main.py:71-88 | in place: unknown booking is NotFound and another user's booking is Forbidden, both changing nothing; otherwise the booking is cancelled and its stored slot freed; keeps `Consistent` when the booking was confirmed |
| Reservations.CancelConfirmedBooking | turf_app/main.py:71-88 | in place, corrected: as `CancelBooking`, but an already cancelled booking is reported and left alone; keeps both invariants unconditionally |
| Management.NewTurfKeepsInvariants | turf_app/main.py:116-162 | listing a turf keeps both invariants; the new turf has no slots and no confirmed bookings |
| Management.AddTurf | turf_app/main.py:116-162 | in place: non-owners are Forbidden; a malformed price is refused before a missing name; otherwise one turf is added for the owner at the given price or 500 |
| Management.FindClash | turf_app/main.py:245-249 | the scan over the turf's slots finds a clash exactly when some slot of that turf on that day overlaps the candidate |
| Management.NewSlotKeepsInvariants | turf_app/main.py:251-258 | adding a slot keeps each turf's slots on each day pairwise non-overlapping, and the new free slot keeps `is_booked` in agreement |
| Management.NewSlotRefusesImproperRange | turf_app/main.py:240-243 | a range with start >= end (zero-length included) is refused, and no overlap is looked for |
| Management.NewSlotOverlapRule | turf_app/main.py:245-258 | a proper candidate is refused exactly when a slot of the same turf on the same day overlaps it; otherwise exactly one free slot with the given turf, date and times is added and nothing else changes |
| Management.OtherDaysNeverClash | turf_app/main.py:246-247 | slots on other days never cause a refusal: removing every slot of another day leaves the overlap check's answer unchanged, whatever slots there are |
| Management.TouchingSlotAccepted | turf_app/main.py:245-258 | after 10:00-11:00, a 10:30-11:30 slot on the same day is refused and an 11:00-12:00 slot is accepted |
| Management.AddSlot | turf_app/main.py:218-267 | in place: NotFound, Forbidden, missing field, bad format, end not after start and overlap each change nothing; otherwise one free slot is added; keeps both invariants |
| Management.DeleteSlot | turf_app/main.py:269-284 | in place, corrected: unknown slot is NotFound and a non-owner is Forbidden; otherwise the slot and all of its bookings are removed (the corrected cascade); keeps both invariants |
| Management.DeleteSlotAsWritten | turf_app/main.py:269-284 | in place, as written: the same NotFound and Forbidden checks; otherwise the slot and only the loaded booking are removed; the tables stay valid when that booking was the slot's only one |
| Management.DeleteTurf | turf_app/main.py:198-213 | in place: unknown turf is NotFound and a non-owner is Forbidden; otherwise the turf, its slots and its bookings are removed; keeps both invariants |
| Dashboard.ConfirmedSumCountsBookings | turf_app/main.py:104 | the per-turf sum of confirmed bookings counts each confirmed booking of those turfs once; cancelled bookings are not counted |
| Dashboard.SlotSumCountsSlots | turf_app/main.py:105 | the per-turf sum of slots counts each slot of those turfs once |
| Dashboard.RevenueSumZeroWithoutBookings | turf_app/main.py:103 | turfs without confirmed bookings contribute no revenue |
| Dashboard.ConfirmedAtMostSlots | turf_app/main.py:104-106 | while no slot is held by two confirmed bookings, the confirmed bookings are at most the slots, so utilization is at most 100% |
| Dashboard.RebookedTablesKeepInvariants | turf_app/main.py:43-85 | the example tables (slot 1 booked, cancelled and re-booked; slot 2 booked) satisfy both invariants |
| Dashboard.OrphanedBookingOverfillsUtilization | turf_app/models.py:85 | deleting slot 1 through the one-to-one relationship removes only the loaded booking; the confirmed re-booking is left pointing at no slot, and the dashboard shows 2 confirmed bookings over 1 slot |
| Dashboard.CascadedDeleteKeepsUtilization | turf_app/main.py:269-284 | deleting slot 1 with every booking that refers to it keeps both invariants and shows 1 confirmed booking over 1 slot |
| Dashboard.DashboardFigures | turf_app/main.py:93-114 | non-owners are refused; total bookings is the number of confirmed bookings on the owner's turfs; utilization is 0 exactly when there are no slots, and otherwise confirmed bookings over slots; no confirmed bookings means no revenue |

## Findings

| source | as written | input that shows it | evidently intended | confidence | as-written member | corrected member |
|---|---|---|---|---|---|---|
| turf_app/main.py:75-85 | `cancel_booking` frees the slot and marks the booking cancelled without checking whether it is already cancelled | player 10 books slot 1 and cancels; player 20 books slot 1; player 10 cancels the first booking again. Slot 1 shows free while player 20's booking is confirmed, and player 30 can then book it as well | a cancelled booking is terminal, so cancelling it again changes nothing | not executed; high | Reservations.RepeatedCancelBreaksFlags | Reservations.CancelIfConfirmedKeepsConsistent |
| turf_app/models.py:85 | `Slot.booking` is one-to-one (`uselist=False`), so deleting a slot cascades to the one booking the mapper loads; no foreign-key enforcement removes the others | slot 1 is booked, cancelled and re-booked, and slot 2 is booked; the owner deletes slot 1. The loaded cancelled booking goes, the confirmed re-booking stays without a slot, and the dashboard shows 2 confirmed bookings over 1 slot (200%) | a slot's bookings go with it, as the `delete-orphan` cascade intends | not executed; medium (which booking the mapper loads is library behaviour) | Dashboard.OrphanedBookingOverfillsUtilization | Models.DeleteSlotRowsKeepsInvariants |

## Left out

- Reservations.CancelBooking: keeps `Consistent` only when the booking was confirmed, because the code does not guard a repeated cancel (see Findings).
- Persistence.Store.Cancel: keeps `Consistent` only when the booking was confirmed, for the same reason.
- Page rendering, flash messages, redirects and `abort`: every outcome is an `Outcome` value instead (Done, Created, NotFound, Forbidden, AlreadyBooked, AlreadyCancelled, Overlap, Invalid). Only the corrected cancel request returns AlreadyCancelled; the code as written never refuses a cancel for that reason.
- Login sessions: the acting user's id, and for the dashboard and `add_turf` their owner flag, are parameters.
- Users are not stored. Password hashing (a library call) and deleting a user with its turfs and bookings are left out; no request deletes a user.
- Date and time parsing is a library call. Each form field is given as blank, malformed or parsed. The model does not enforce that a parsed time is a valid minute of the day.
- Prices are integers, not floats. Utilization is given as its zero case and its numerator and denominator, not as a rounded percentage.
- Transactions, commits and rollback are left out. The generic exception paths of `add_turf`, `add_slot`, `delete_slot` and `delete_turf`, which catch database failures, are left out too. The one exception the model does cover is a malformed price in `add_turf`, which is reported as `Invalid(BadFormat)`.
- Row ids come from per-table counters. The database's own id assignment may reuse ids; the model does not.
- Persistence.Store.DeleteSlot: performs the corrected cascade, which deletes every booking of the slot; Persistence.Store.DeleteSlotLoaded is the delete as written.
- Management.DeleteSlot: performs the corrected cascade, so it keeps both invariants; Management.DeleteSlotAsWritten is the request as written, and it keeps them only while the slot has a single booking.
- Models.DeleteSlotRowsKeepsInvariants: holds for the corrected cascade, which deletes every booking of the slot. The code's one-to-one `Slot.booking` relationship removes only the booking the mapper loads, so after a cancel and a re-book the other booking survives without a slot (see Findings). The tables are then not well formed, and Dashboard.ConfirmedAtMostSlots (utilization at most 100%) no longer holds for them. `DeleteSlotLoadedRows` models that delete with the loaded booking as a parameter. Which booking the mapper actually loads is library behaviour and is not modelled.
- `edit_turf` overwrites descriptive fields and the price. Its error path depends on the object mapper's session state, so it is not modelled. Image upload in `add_turf` and `edit_turf` is file-system I/O and is also left out.
- The read-only pages (`index`, `turf_list`, `turf_details`, `booking_history`) are not modelled: they are database queries with filters and orderings. Rendering the `add_slot` form on GET is not modelled either.
- Two concurrent bookings of one slot can race. Each request is modelled as running alone.
