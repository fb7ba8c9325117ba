/**
 The administrator's booking transitions. PENDING may be approved or
 rejected; PENDING and APPROVED may be cancelled or amended; REJECTED (which
 also means cancelled) is terminal. Approve and amend may move a booking to
 another staff member or time without checking it against other bookings.
 */
module Lifecycle {
  import opened Wrappers
  import opened Intervals
  import opened Ledger
  import opened Store

  /** `value || current`: a supplied non-empty value replaces the current one. */
  function OrCurrent(supplied: string, current: string): string {
    if supplied == "" then current else supplied
  }

  /** PATCH /bookings/:id/approve, optionally reassigning staff and start time. */
  function Approve(s: State, id: nat, staffId: string, slotTime: string): (r: Result<State, Error>)
    ensures id >= |s.bookings| ==> r == Failure(BookingNotFound)
    ensures id < |s.bookings| && s.bookings[id].status != Pending ==> r == Failure(NotPending)
    ensures id < |s.bookings| && s.bookings[id].status == Pending ==>
      && r.Success?
      && OnlyBookingChanged(s, r.value, id)
      && var before := s.bookings[id];
         var after := r.value.bookings[id];
         && after.status == Approved
         && after.staffId == (if staffId == "" then before.staffId else staffId)
         && after.slotTime == (if slotTime == "" then before.slotTime else slotTime)
         && after.clientId == before.clientId
         && after.date == before.date
         && after.duration == before.duration
         && after.message == before.message
  {
    if id >= |s.bookings| then Failure(BookingNotFound)
    else
      var b := s.bookings[id];
      if b.status != Pending then Failure(NotPending)
      else
        var updated := b.(status := Approved,
                          staffId := OrCurrent(staffId, b.staffId),
                          slotTime := OrCurrent(slotTime, b.slotTime));
        Success(s.(bookings := s.bookings[id := updated]))
  }

  /** PATCH /bookings/:id/reject. */
  function Reject(s: State, id: nat): (r: Result<State, Error>)
    ensures id >= |s.bookings| ==> r == Failure(BookingNotFound)
    ensures id < |s.bookings| && s.bookings[id].status != Pending ==> r == Failure(NotPending)
    ensures id < |s.bookings| && s.bookings[id].status == Pending ==>
      && r.Success?
      && OnlyBookingChanged(s, r.value, id)
      && r.value.bookings[id] == s.bookings[id].(status := Rejected)
  {
    if id >= |s.bookings| then Failure(BookingNotFound)
    else
      var b := s.bookings[id];
      if b.status != Pending then Failure(NotPending)
      else Success(s.(bookings := s.bookings[id := b.(status := Rejected)]))
  }

  /** PATCH /bookings/:id/cancel: works from PENDING and APPROVED. */
  function Cancel(s: State, id: nat): (r: Result<State, Error>)
    ensures id >= |s.bookings| ==> r == Failure(BookingNotFound)
    ensures id < |s.bookings| && s.bookings[id].status == Rejected ==> r == Failure(AlreadyCancelled)
    ensures id < |s.bookings| && IsActive(s.bookings[id]) ==>
      && r.Success?
      && OnlyBookingChanged(s, r.value, id)
      && r.value.bookings[id] == s.bookings[id].(status := Rejected)
  {
    if id >= |s.bookings| then Failure(BookingNotFound)
    else
      var b := s.bookings[id];
      if b.status == Rejected then Failure(AlreadyCancelled)
      else Success(s.(bookings := s.bookings[id := b.(status := Rejected)]))
  }

  /**
   PATCH /bookings/:id: changes only the supplied staff id and start time,
   and the duration only when it is 60, 90 or 120.
   */
  function Amend(s: State, id: nat, staffId: string, slotTime: string, duration: Option<int>): (r: Result<State, Error>)
    ensures id >= |s.bookings| ==> r == Failure(BookingNotFound)
    ensures id < |s.bookings| && s.bookings[id].status == Rejected ==> r == Failure(CannotEditRejected)
    ensures id < |s.bookings| && IsActive(s.bookings[id]) ==>
      && r.Success?
      && OnlyBookingChanged(s, r.value, id)
      && var before := s.bookings[id];
         var after := r.value.bookings[id];
         && after.status == before.status
         && after.staffId == (if staffId == "" then before.staffId else staffId)
         && after.slotTime == (if slotTime == "" then before.slotTime else slotTime)
         && (after.duration != before.duration ==> duration.Some? && after.duration == duration.value)
         && (duration.Some? && IsAllowedDuration(duration.value) ==> after.duration == duration.value)
         && (!(duration.Some? && IsAllowedDuration(duration.value)) ==> after.duration == before.duration)
         && after.clientId == before.clientId
         && after.date == before.date
         && after.message == before.message
  {
    if id >= |s.bookings| then Failure(BookingNotFound)
    else
      var b := s.bookings[id];
      if !IsActive(b) then Failure(CannotEditRejected)
      else
        var newDuration := if duration.Some? && IsAllowedDuration(duration.value) then duration.value else b.duration;
        var updated := b.(staffId := OrCurrent(staffId, b.staffId),
                          slotTime := OrCurrent(slotTime, b.slotTime),
                          duration := newDuration);
        Success(s.(bookings := s.bookings[id := updated]))
  }

  /** REJECTED is terminal: every transition refuses it and the state stays as it was. */
  lemma RejectedIsTerminal(s: State, id: nat, staffId: string, slotTime: string, duration: Option<int>)
    requires id < |s.bookings| && s.bookings[id].status == Rejected
    ensures Approve(s, id, staffId, slotTime).Failure?
    ensures Reject(s, id).Failure?
    ensures Cancel(s, id).Failure?
    ensures Amend(s, id, staffId, slotTime, duration).Failure?
  {
  }

  lemma RejectKeepsNoDoubleBooking(s: State, id: nat)
    requires NoDoubleBooking(s.bookings)
    requires Reject(s, id).Success?
    ensures NoDoubleBooking(Reject(s, id).value.bookings)
  {
    DeactivateKeepsNoDoubleBooking(s.bookings, id, s.bookings[id].(status := Rejected));
  }

  lemma CancelKeepsNoDoubleBooking(s: State, id: nat)
    requires NoDoubleBooking(s.bookings)
    requires Cancel(s, id).Success?
    ensures NoDoubleBooking(Cancel(s, id).value.bookings)
  {
    DeactivateKeepsNoDoubleBooking(s.bookings, id, s.bookings[id].(status := Rejected));
  }

  /** Two PENDING one-hour bookings at the same time for different staff members. */
  function TwoStaffSameHour(): State {
    var first := Booking("client-1", "staff-a", "2026-01-05", "11:00", 60, Pending, None);
    var second := Booking("client-2", "staff-b", "2026-01-05", "11:00", 60, Pending, None);
    State({"staff-a", "staff-b"}, map[], [first, second])
  }

  /**
   Approving with a new staff member is not checked against that member's
   bookings: moving the second booking onto staff-a double-books staff-a.
   */
  lemma ApproveCanDoubleBook()
    ensures NoDoubleBooking(TwoStaffSameHour().bookings)
    ensures Approve(TwoStaffSameHour(), 1, "staff-a", "").Success?
    ensures !NoDoubleBooking(Approve(TwoStaffSameHour(), 1, "staff-a", "").value.bookings)
  {
    var after := Approve(TwoStaffSameHour(), 1, "staff-a", "").value.bookings;
    assert Conflict(after[0], after[1]);
  }

  /** Amend is likewise unchecked: the same move through an edit double-books staff-a. */
  lemma AmendCanDoubleBook()
    ensures NoDoubleBooking(TwoStaffSameHour().bookings)
    ensures Amend(TwoStaffSameHour(), 1, "staff-a", "", None).Success?
    ensures !NoDoubleBooking(Amend(TwoStaffSameHour(), 1, "staff-a", "", None).value.bookings)
  {
    var after := Amend(TwoStaffSameHour(), 1, "staff-a", "", None).value.bookings;
    assert Conflict(after[0], after[1]);
  }
}
