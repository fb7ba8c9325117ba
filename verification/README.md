# Slot availability and booking engine — a Dafny model

This project models the part of the appointment-booking back end that is
responsible for keeping a staff member from being booked twice. The model covers:

- **The time grid.** "HH:MM" clock strings are parsed to minutes of the day
  with JavaScript's `split(':')`, `Number` and `|| 0` coercions written out.
  The model also covers the fixed 15-minute lattice from 11:00 to 20:45 and
  the flooring of a time to the hour label that a staff member publishes as a
  window (`TimeGrid`, on top of `JsText`).
- **Interval arithmetic.** Bookings occupy half-open minute ranges. The
  overlap test is shared by the query path and the submit path
  (`Intervals`, `Ledger`).
- **The slot query for one date** (`SlotQuery`). For each staff member with
  windows that day, the query gives:
  - the windows still free for a whole hour;
  - the 40-row grid of `{time, available, busy}`;
  - the raw booked ranges.
- **Booking submission** (`Submit`). The request passes five gates in the
  code's order, then a PENDING booking is appended. Submission keeps the
  no-double-booking invariant.
- **The administrator's lifecycle transitions** (`Lifecycle`): approve,
  reject, cancel and amend. REJECTED also means cancelled and is terminal.
  Approve and amend move bookings without re-checking overlap. Counterexample
  lemmas exhibit the double booking this allows.
- **Publishing availability** (`Availability`). This is an upsert keyed by
  (staff, date), with the 11 default hour windows used when no array is given.
- **The 12-hour clock rendering** used in notifications (`Notification`).
- **Worked scenarios** that combine these operations (`Scenarios`).

The database is an immutable `Store.State`. It holds:

- the set of staff ids;
- a map from (staff, date) to the published window labels;
- the booking sequence. A booking's id is its position in that sequence.

Every route that writes is a pure function returning `Result<State, Error>`.
The slot query returns `Result<map<string, StaffView>, Error>`, and it is
refused when the date is missing. Each `Error` carries the HTTP status it is
answered with.

Conventions:

- A request string field that is absent is `""`. JavaScript treats both as
  falsy, and the routes test them with `!x` or `x || y`.
- A number that is absent or is NaN is `None`.
- Dates are opaque strings compared for equality.

Behaviour a reader may not expect, which the model follows:

- Submission looks up the availability record *before* it checks the
  minute. So a request for a staff member without a record that day fails
  with "not available" even when its minute is also invalid.
- Reject works only from PENDING. Rejecting an APPROVED booking is refused
  (`Scenarios.ApprovedCancelThenRebook`); only cancel moves APPROVED to REJECTED.
- An empty `slots` array is stored as it is. The defaults apply only when
  `slots` is not an array.
- No bound on how far a booking may extend past the grid is enforced. A
  booking starting at 21:45 for 120 minutes is accepted if 21:00 is a window.
- The modelled errors are 400/404/409 answers. There is no separate state-error
  class; failures the database itself raises are not modelled (see "## Left out").

## Model

| member | source | states |
|---|---|---|
| TimeGrid.Generate15MinSlots | src/routes/client.js:47-56 | the nested loops produce exactly the 40-point lattice; point i lies 660 + 15·i minutes after midnight, so the list rises strictly by 15 minutes; the early exit at 20:45 is never taken |
| TimeGrid.FineSlotsLattice | src/routes/client.js:47-56 | the lattice has 40 points from "11:00" to "20:45", each on minute 0, 15, 30 or 45, point i at 660 + 15·i minutes, with hour label Label(11 + i/4, 0) |
| TimeGrid.LabelFields | src/routes/client.js:58-61 | a string spelling a zero-padded "HH:MM" reads back as hour H and minute M, so timeToMinutes gives 60·H + M |
| TimeGrid.TimeToMinutesOfParts | src/routes/client.js:120-123 | for any "h:m" string, each part is read with Number and a NaN part counts as 0; the parse never fails |
| TimeGrid.TimeToMinutesWithoutMinutes | src/routes/client.js:58-61 | a string without ':' has no minute part, and that part contributes 0 |
| TimeGrid.HourLabelOfLabel | src/routes/client.js:63-67 | flooring a string spelling "HH:MM" to its hour window gives "HH:00", the label a staff member publishes |
| Intervals.TouchingRangesDoNotIntersect | src/routes/client.js:69-71 | ranges where one ends exactly where the other starts do not overlap, in either order |
| Intervals.IntersectsSymmetric | src/routes/client.js:125-127 | range overlap is symmetric |
| Intervals.NothingOverlapsNoRanges | src/routes/client.js:69-71 | an empty range list overlaps nothing |
| Ledger.StaffBookedRanges | src/routes/client.js:73-80 | the list holds exactly one range per PENDING or APPROVED booking of that staff member on that date: each range [start, start + (duration or 60)) occurs as often as there are such bookings with that range, and no other range occurs; the order is the booking list's, which the source leaves to the database |
| Ledger.ConflictSymmetric | src/routes/client.js:125-127 | two bookings collide regardless of which one is the candidate |
| Ledger.InactiveNeverConflicts | src/routes/client.js:39-44 | a REJECTED booking collides with no booking |
| Ledger.OverlapsIffBookingMeets | src/routes/client.js:69-80 | overlapping the staff member's booked ranges is the same as meeting the range of one of their active bookings that day |
| Ledger.OverlapsIffConflict | src/routes/client.js:164-177 | the submit path's overlap test against the ranges rejects a candidate exactly when it collides with some existing booking |
| Ledger.AppendKeepsNoDoubleBooking | src/routes/client.js:177-189 | appending a booking that collides with no existing booking keeps all active bookings pairwise disjoint per staff member and date |
| Ledger.DeactivateKeepsNoDoubleBooking | src/routes/admin.js:385-387 | replacing a booking with a REJECTED one keeps the bookings pairwise disjoint |
| SlotQuery.AvailableSlots | src/routes/client.js:87-91 | the free windows are a subsequence of the published windows, in order; each window is kept exactly as often as it was published when its hour meets no booked range, and dropped otherwise |
| SlotQuery.Row | src/routes/client.js:93-99 | a grid row is never both available and busy; it is neither exactly when its hour is not a window; it is busy exactly when its hour is a window and the hour from the row meets a booked range |
| SlotQuery.TimeSlots | src/routes/client.js:93-99 | the grid has 40 rows, one per lattice point, in lattice order; no row is both available and busy; row i is open exactly when Label(11 + i/4, 0) is a window, and busy exactly when it is open and the hour from minute 660 + 15·i meets a booked range |
| SlotQuery.ViewFor | src/routes/client.js:84-108 | one staff member's view: the windows as published; the ranges of their active bookings that day; a window is offered as free iff it is published and no active booking of theirs that day meets its hour; the grid has 40 rows, and row i is busy iff Label(11 + i/4, 0) is a window and such a booking meets the hour from minute 660 + 15·i, available iff the window is open and none does |
| SlotQuery.DayView | src/routes/client.js:14-36 | a missing date is refused with the 400 error, and only then; otherwise the answer has a view for a staff member exactly when they have a non-empty window list that day, and that view is theirs |
| SlotQuery.GridRowMeaning | src/routes/client.js:93-99 | for any windows and bookings: grid row i over the staff member's booked ranges is busy iff its window is open and some active booking of that staff member that day meets the hour from minute 660 + 15·i, and available iff the window is open and none does |
| SlotQuery.AvailableSlotMeaning | src/routes/client.js:87-91 | for any windows and bookings: a window is kept among the free windows iff it is published and no active booking of that staff member that day meets the hour it starts |
| Submit.ValidDuration | src/routes/client.js:138 | the recorded duration is always 60, 90 or 120: the requested value when it is one of these, 60 otherwise |
| Submit.SubmitBooking | src/routes/client.js:134-181 | the five gates, in code order, each with both directions: missing field; no availability record; minute not a quarter; hour not a window; overlap with an active booking (409). It succeeds iff all gates pass, and then only appends the new PENDING booking |
| Submit.SubmitKeepsNoDoubleBooking | src/routes/client.js:177-189 | a successful submission keeps every staff member's active bookings on each date pairwise disjoint |
| Submit.SubmittedBookingIsWellFormed | src/routes/client.js:181-189 | the created booking is PENDING, has an allowed duration, and starts on a quarter hour inside one of its staff member's windows that day |
| Store.HttpStatus | src/routes/client.js:134-179 | every error is answered with 400, 404 or 409: 409 exactly for an overlap, as submission answers it; 404 exactly for an unknown staff member or booking, as src/routes/admin.js answers at lines 147-148, 249-250, 300-301, 339-340 and 377-378; 400 for everything else |
| Availability.SlotsToSave | src/routes/admin.js:130-153 | an array, including an empty one, is stored verbatim; anything else stores exactly the default list, the 11 windows "11:00" to "21:00" |
| Availability.DefaultSlotsAreHours | src/routes/admin.js:130-133 | default window i is the hour label of hour 11 + i |
| Availability.SetAvailability | src/routes/admin.js:139-168 | a missing staff id or date gives the 400 error, and only then; an unknown staff id gives the 404 error, and only then; every other call succeeds, and then only the (staff, date) entry is created or replaced, and staff, bookings and every other entry are unchanged |
| Availability.SetAvailabilityIdempotent | src/routes/admin.js:155-168 | repeating the same call leaves the state it produced the first time |
| Availability.SetAvailabilityLastWins | src/routes/admin.js:155-168 | a second call for the same key yields the same state as the second call alone; the earlier windows are replaced entirely |
| Lifecycle.Approve | src/routes/admin.js:249-266 | an unknown id gives 404; a booking that is not PENDING is refused; from PENDING it becomes APPROVED, and staff and start time fall back to the current values when not supplied; client, date, duration, message and every other booking are untouched |
| Lifecycle.Reject | src/routes/admin.js:300-310 | an unknown id gives 404; a booking that is not PENDING is refused; from PENDING only its status changes, to REJECTED |
| Lifecycle.Cancel | src/routes/admin.js:377-387 | an unknown id gives 404; a REJECTED booking is refused as already cancelled; from PENDING or APPROVED only its status changes, to REJECTED |
| Lifecycle.Amend | src/routes/admin.js:339-352 | an unknown id gives 404; a REJECTED booking cannot be edited; otherwise it changes only the supplied staff id and start time, and the duration only to a supplied 60, 90 or 120; status and every other booking are untouched |
| Lifecycle.RejectedIsTerminal | src/routes/admin.js:249-387 | approve, reject, cancel and amend all refuse a REJECTED booking |
| Lifecycle.RejectKeepsNoDoubleBooking | src/routes/admin.js:304-310 | a successful reject keeps the active bookings pairwise disjoint |
| Lifecycle.CancelKeepsNoDoubleBooking | src/routes/admin.js:381-387 | a successful cancel keeps the active bookings pairwise disjoint |
| Lifecycle.ApproveCanDoubleBook | src/routes/admin.js:257-266 | from a state without double booking, approving a booking onto another staff member at the same hour succeeds and double-books that staff member |
| Lifecycle.AmendCanDoubleBook | src/routes/admin.js:347-352 | the same move made through amend also succeeds and double-books |
| Notification.FormatTimeAMPM | src/services/notificationService.js:53-54 | the rendering is empty exactly when the time is empty |
| Notification.FormatEndsWithPeriod | src/services/notificationService.js:58-60 | a non-empty time renders ending in " AM" or " PM"; it ends in "AM" exactly when the hour read is below 12 |
| Notification.ClockRoundTrip | src/services/notificationService.js:58-59 | for hours 0..23 the displayed hour lies in 1..12, and together with the period it reads back as the original hour |
| Notification.FormatClockTime | src/services/notificationService.js:55-60 | a well-formed "HH:MM" renders as the unpadded 12-hour hour, the minute as two digits, and the period |
| Notification.FormatReadsBack | src/services/notificationService.js:55-60 | for an hour read as 0..23 and a minute read as 0..99, the rendering reads back: the text before ':' is a number which, with the trailing period, gives the hour of the day, and the two characters after ':' give the minute |
| Notification.FormatWithoutMinutes | src/services/notificationService.js:55-57 | a time without a minute part renders the minute as "00" |
| Notification.FormatNonNumericExample | src/services/notificationService.js:55-57 | "abc" has no numeric hour or minute and renders as "12:00 AM" |
| Notification.FormatAfternoonExample | src/services/notificationService.js:53-61 | "13:05" renders as "1:05 PM" |
| Scenarios.InactiveBookingsDoNotBlock | src/routes/client.js:166-177 | adding bookings that hold no time never turns an accepted request into a refused one |
| Scenarios.RepeatedRequestOverlaps | src/routes/client.js:164-179 | submitting the same request again right after it succeeded is refused as overlapping |
| Scenarios.RejectionFreesCapacity | src/routes/admin.js:304-310 | after a new booking is rejected, the identical request succeeds |
| Scenarios.OneHourBlocksOnlyItsHour | src/routes/client.js:134-189 | with windows 11:00 and 12:00: 11:00 for an hour is accepted as PENDING; 11:30 is then refused as overlapping; 12:00, which only touches, is accepted |
| Scenarios.ApprovedCancelThenRebook | src/routes/admin.js:249-387 | after the 11:00 booking is approved, reject is refused because it is not PENDING, cancel succeeds, and 11:00 can then be booked again |
| Scenarios.OffQuarterStartRefused | src/routes/client.js:155-158 | a start at 11:10 is refused as not on a quarter hour |
| Scenarios.NoRecordRefused | src/routes/client.js:150-152 | a staff member without an availability record that day is refused as not available |

## Left out

- Prisma, Express and HTTP plumbing. The store is an immutable value, routes are functions, and a response is the `Result` value. The `include`/`select` projections of related users are not modelled.
- Submission is modelled as one atomic step. The gap between reading the overlapping bookings and inserting the new one is a concurrency concern and is outside this sequential model.
- Dates are opaque keys. The `new Date(date + 'T12:00:00.000Z')` normalisation and the date-range filters are not modelled.
- The booking listing and availability listing routes, authentication and role checks, staff CRUD, and the notification routes are not part of this model.
- Notification persistence and fan-out, and the locale-dependent message texts, are not modelled. Only `formatTimeAMPM` is.
- JsText.JsNumber: JavaScript's `Number` is a double; the model reads the empty string as 0 and a digit string, optionally signed, as an exact unbounded integer, and every other string as NaN. JavaScript rounds integers past 2^53 to the nearest double (`Number("9007199254740993")` is 9007199254740992), so two labels the model keeps apart can compare equal there; it also reads strings with surrounding whitespace, a decimal point, an exponent, `Infinity`, or a `0x`, `0b` or `0o` prefix as numbers, which the model makes NaN.
- JsText.IntToString: `String(n)` is modelled as plain decimal for every integer; JavaScript writes values from 1e21 on in exponent form.
- Store.State: booking ids are positions in the booking sequence, not database-generated UUIDs. No route of the modelled core deletes a booking, so positions are stable. Deleting a staff member (staff CRUD) and whatever the database does to that member's bookings are not part of this model.
- SlotQuery.DayView: the answer is a map keyed by staff id rather than the database's list order, and the staff member's name and state are not carried.
- Submit.BookingRequest: a `duration` that is not a number is `None`, and a `message` that is absent is `""`. Booleans and other JSON types in these fields are not modelled.
- Lifecycle.Approve: a supplied `staffId` is not checked against the staff set, because the route does not check it either; the database's refusal of a `staff` relation that names no user, and the `next(err)` answer that leaves the booking unchanged, are not modelled, so the model's approve succeeds with any non-empty id.
- Lifecycle.Amend: as for approve, a supplied `staffId` is written without a check against the staff set; the database's refusal of an unknown user and the `next(err)` answer are not modelled.
