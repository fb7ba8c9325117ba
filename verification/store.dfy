/** The state the routes read and write, and the errors they answer with. */
module Store {
  import opened Ledger

  /** Availability records are unique per staff member and date. */
  datatype AvailabilityKey = AvailabilityKey(staffId: string, date: string)

  /**
   The booking engine's view of the database: the ids of users with the
   STAFF role, each (staff, date) availability record's window labels, and
   every booking. A booking's id is its position in `bookings`.
   */
  datatype State = State(
    staff: set<string>,
    availability: map<AvailabilityKey, seq<string>>,
    bookings: seq<Booking>)

  datatype Error =
    | MissingFields       // 400: a required request field is absent
    | StaffNotFound       // 404: no STAFF user has that id
    | NotAvailableOnDate  // 400: no availability record for (staff, date)
    | NotQuarterHour      // 400: the minute is not 0, 15, 30 or 45
    | InvalidTimeSlot     // 400: the hour is not one of the staff member's windows
    | SlotOverlaps        // 409: the interval overlaps an active booking
    | BookingNotFound     // 404: no booking has that id
    | NotPending          // 400: approve or reject of a booking that is not PENDING
    | AlreadyCancelled    // 400: cancel of a REJECTED booking
    | CannotEditRejected  // 400: amend of a REJECTED booking

  /** The HTTP status each error is answered with. */
  function HttpStatus(e: Error): (code: int)
    ensures code == 400 || code == 404 || code == 409
    ensures code == 404 <==> e == StaffNotFound || e == BookingNotFound
    ensures code == 409 <==> e == SlotOverlaps
  {
    match e
    case StaffNotFound => 404
    case BookingNotFound => 404
    case SlotOverlaps => 409
    case _ => 400
  }

  /** State t differs from s at most in booking `id`. */
  predicate OnlyBookingChanged(s: State, t: State, id: nat) {
    && t.staff == s.staff
    && t.availability == s.availability
    && |t.bookings| == |s.bookings|
    && forall j :: 0 <= j < |s.bookings| && j != id ==> t.bookings[j] == s.bookings[j]
  }
}
