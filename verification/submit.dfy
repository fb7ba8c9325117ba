/**
 A client's booking request: a fixed sequence of validation gates, then the
 overlap check against the staff member's active bookings that day, then the
 new PENDING booking. Submission is one atomic step here.
 */
module Submit {
  import opened Wrappers
  import opened JsText
  import opened TimeGrid
  import opened Intervals
  import opened Ledger
  import opened Store

  /**
   The request body. An absent or empty string field is "", an absent or
   non-numeric duration is None, and an absent message is "".
   */
  datatype BookingRequest = BookingRequest(
    staffId: string,
    date: string,
    slotTime: string,
    duration: Option<int>,
    message: string)

  /** The duration recorded: 60, 90 or 120 as requested, and 60 for anything else. */
  function ValidDuration(d: Option<int>): (r: int)
    ensures IsAllowedDuration(r)
    ensures d.Some? && IsAllowedDuration(d.value) ==> r == d.value
    ensures !(d.Some? && IsAllowedDuration(d.value)) ==> r == 60
  {
    if d.Some? && IsAllowedDuration(d.value) then d.value else 60
  }

  /** The PENDING booking a request would create for this client. */
  function Candidate(clientId: string, req: BookingRequest): Booking {
    Booking(clientId, req.staffId, req.date, req.slotTime, ValidDuration(req.duration), Pending,
            if req.message == "" then None else Some(req.message))
  }

  predicate HasRequiredFields(req: BookingRequest) {
    req.staffId != "" && req.date != "" && req.slotTime != ""
  }

  /** The start lies on a quarter hour of one of the staff member's published windows. */
  predicate StartsInWindow(slotTime: string, windows: seq<string>) {
    && MinuteOf(slotTime).Some? && IsQuarter(MinuteOf(slotTime).value)
    && IsInStaffSlots(slotTime, windows)
  }

  /**
   Every gate passes: the fields are present, the start is a quarter hour in
   one of the staff member's windows that day, and the new interval collides
   with no active booking of theirs.
   */
  predicate Admissible(s: State, clientId: string, req: BookingRequest) {
    && HasRequiredFields(req)
    && AvailabilityKey(req.staffId, req.date) in s.availability
    && StartsInWindow(req.slotTime, s.availability[AvailabilityKey(req.staffId, req.date)])
    && forall i :: 0 <= i < |s.bookings| ==> !Conflict(Candidate(clientId, req), s.bookings[i])
  }

  /** POST /bookings. */
  function SubmitBooking(s: State, clientId: string, req: BookingRequest): (r: Result<State, Error>)
    ensures r == Failure(MissingFields) <==> !HasRequiredFields(req)
    ensures r == Failure(NotAvailableOnDate) <==>
      HasRequiredFields(req) && AvailabilityKey(req.staffId, req.date) !in s.availability
    ensures r == Failure(NotQuarterHour) <==>
      && HasRequiredFields(req) && AvailabilityKey(req.staffId, req.date) in s.availability
      && !(MinuteOf(req.slotTime).Some? && IsQuarter(MinuteOf(req.slotTime).value))
    ensures r == Failure(InvalidTimeSlot) <==>
      && HasRequiredFields(req) && AvailabilityKey(req.staffId, req.date) in s.availability
      && MinuteOf(req.slotTime).Some? && IsQuarter(MinuteOf(req.slotTime).value)
      && !IsInStaffSlots(req.slotTime, s.availability[AvailabilityKey(req.staffId, req.date)])
    ensures r == Failure(SlotOverlaps) <==>
      && HasRequiredFields(req) && AvailabilityKey(req.staffId, req.date) in s.availability
      && StartsInWindow(req.slotTime, s.availability[AvailabilityKey(req.staffId, req.date)])
      && exists i :: 0 <= i < |s.bookings| && Conflict(Candidate(clientId, req), s.bookings[i])
    ensures r.Success? <==> Admissible(s, clientId, req)
    ensures r.Success? ==> r.value == s.(bookings := s.bookings + [Candidate(clientId, req)])
  {
    if !HasRequiredFields(req) then Failure(MissingFields)
    else
      var key := AvailabilityKey(req.staffId, req.date);
      if key !in s.availability then Failure(NotAvailableOnDate)
      else
        var windows := s.availability[key];
        var m := MinuteOf(req.slotTime);
        if !(m.Some? && IsQuarter(m.value)) then Failure(NotQuarterHour)
        else if !IsInStaffSlots(req.slotTime, windows) then Failure(InvalidTimeSlot)
        else
          var newStart := TimeToMinutes(req.slotTime);
          var newEnd := newStart + ValidDuration(req.duration);
          var existing := StaffBookedRanges(s.bookings, req.staffId, req.date);
          OverlapsIffConflict(s.bookings, Candidate(clientId, req));
          if Overlaps(newStart, newEnd, existing) then Failure(SlotOverlaps)
          else Success(s.(bookings := s.bookings + [Candidate(clientId, req)]))
  }

  /** A successful submission keeps every staff member's active bookings pairwise disjoint. */
  lemma SubmitKeepsNoDoubleBooking(s: State, clientId: string, req: BookingRequest)
    requires NoDoubleBooking(s.bookings)
    requires SubmitBooking(s, clientId, req).Success?
    ensures NoDoubleBooking(SubmitBooking(s, clientId, req).value.bookings)
  {
    AppendKeepsNoDoubleBooking(s.bookings, Candidate(clientId, req));
  }

  /** Every booking a submission creates satisfies the creation-time rules. */
  lemma SubmittedBookingIsWellFormed(s: State, clientId: string, req: BookingRequest)
    requires SubmitBooking(s, clientId, req).Success?
    ensures var b := SubmitBooking(s, clientId, req).value.bookings[|s.bookings|];
      && b.status == Pending
      && IsAllowedDuration(b.duration)
      && AvailabilityKey(b.staffId, b.date) in s.availability
      && StartsInWindow(b.slotTime, s.availability[AvailabilityKey(b.staffId, b.date)])
  {
  }
}
