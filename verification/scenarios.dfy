/**
 End-to-end consequences of submission and the lifecycle together: freed
 capacity can be booked again, and the worked booking scenarios for one staff
 member with windows 11:00 and 12:00.
 */
module Scenarios {
  import opened Wrappers
  import opened JsText
  import opened TimeGrid
  import opened Intervals
  import opened Ledger
  import opened Store
  import opened Submit
  import opened Lifecycle

  /**
   A request that succeeded still succeeds after any further bookings that
   hold no time are added.
   */
  lemma InactiveBookingsDoNotBlock(s: State, clientId: string, req: BookingRequest, extra: seq<Booking>)
    requires SubmitBooking(s, clientId, req).Success?
    requires forall k :: 0 <= k < |extra| ==> !IsActive(extra[k])
    ensures SubmitBooking(s.(bookings := s.bookings + extra), clientId, req).Success?
  {
    assert Admissible(s, clientId, req);
    AdmissibleWithInactive(s, clientId, req, extra);
  }

  lemma AdmissibleWithInactive(s: State, clientId: string, req: BookingRequest, extra: seq<Booking>)
    requires Admissible(s, clientId, req)
    requires forall k :: 0 <= k < |extra| ==> !IsActive(extra[k])
    ensures Admissible(s.(bookings := s.bookings + extra), clientId, req)
  {
    var t := s.(bookings := s.bookings + extra);
    var b := Candidate(clientId, req);
    forall i | 0 <= i < |t.bookings|
      ensures !Conflict(b, t.bookings[i])
    {
      if i < |s.bookings| {
        assert t.bookings[i] == s.bookings[i];
      } else {
        assert t.bookings[i] == extra[i - |s.bookings|];
        InactiveNeverConflicts(t.bookings[i], b);
      }
    }
  }

  /** The same request again, while the first booking is active, is refused as overlapping. */
  lemma RepeatedRequestOverlaps(s: State, clientId: string, req: BookingRequest)
    requires SubmitBooking(s, clientId, req).Success?
    ensures SubmitBooking(SubmitBooking(s, clientId, req).value, clientId, req) == Failure(SlotOverlaps)
  {
    var t := SubmitBooking(s, clientId, req).value;
    var b := Candidate(clientId, req);
    assert t.bookings[|s.bookings|] == b;
    assert Conflict(b, t.bookings[|s.bookings|]);
  }

  /** Rejecting a new booking frees its interval: the identical request then succeeds. */
  lemma RejectionFreesCapacity(s: State, clientId: string, req: BookingRequest)
    requires SubmitBooking(s, clientId, req).Success?
    ensures var n := |s.bookings|;
      var t := SubmitBooking(s, clientId, req).value;
      && Reject(t, n).Success?
      && SubmitBooking(Reject(t, n).value, clientId, req).Success?
  {
    var n := |s.bookings|;
    var t := SubmitBooking(s, clientId, req).value;
    var rejected := Candidate(clientId, req).(status := Rejected);
    assert Reject(t, n).value.bookings == s.bookings + [rejected];
    InactiveBookingsDoNotBlock(s, clientId, req, [rejected]);
    assert Reject(t, n).value == s.(bookings := s.bookings + [rejected]);
  }

  /** Staff member S1 on day D with windows 11:00 and 12:00 and no bookings. */
  function OpenDay(): State {
    State({"S1"}, map[AvailabilityKey("S1", "D") := ["11:00", "12:00"]], [])
  }

  function RequestAt(slotTime: string): BookingRequest {
    BookingRequest("S1", "D", slotTime, Some(60), "")
  }

  lemma Time1100()
    ensures MinuteOf("11:00") == Some(0) && TimeToMinutes("11:00") == 660
    ensures HourLabel(HourOf("11:00")) == "11:00"
  {
    ClockLiteral(11, 0);
    LabelFields("11:00", 11, 0);
    HourLabelOfLabel("11:00", 11, 0);
  }

  lemma Time1130()
    ensures MinuteOf("11:30") == Some(30) && TimeToMinutes("11:30") == 690
    ensures HourLabel(HourOf("11:30")) == "11:00"
  {
    ClockLiteral(11, 30);
    ClockLiteral(11, 0);
    LabelFields("11:30", 11, 30);
    HourLabelOfLabel("11:30", 11, 30);
  }

  lemma Time1200()
    ensures MinuteOf("12:00") == Some(0) && TimeToMinutes("12:00") == 720
    ensures HourLabel(HourOf("12:00")) == "12:00"
  {
    ClockLiteral(12, 0);
    LabelFields("12:00", 12, 0);
    HourLabelOfLabel("12:00", 12, 0);
  }

  lemma Time1110()
    ensures MinuteOf("11:10") == Some(10)
  {
    ClockLiteral(11, 10);
    LabelFields("11:10", 11, 10);
  }

  /** The state after client C1 has booked 11:00-12:00. */
  function FirstBooked(): State {
    OpenDay().(bookings := [Candidate("C1", RequestAt("11:00"))])
  }

  lemma FirstRequestAccepted()
    ensures SubmitBooking(OpenDay(), "C1", RequestAt("11:00")) == Success(FirstBooked())
  {
    Time1100();
    var s := OpenDay();
    var req := RequestAt("11:00");
    assert StartsInWindow("11:00", s.availability[AvailabilityKey("S1", "D")]);
    assert Admissible(s, "C1", req);
    assert s.bookings + [Candidate("C1", req)] == FirstBooked().bookings;
  }

  lemma OverlappingRequestRefused()
    ensures SubmitBooking(FirstBooked(), "C2", RequestAt("11:30")) == Failure(SlotOverlaps)
  {
    Time1100();
    Time1130();
    var s := FirstBooked();
    assert StartsInWindow("11:30", s.availability[AvailabilityKey("S1", "D")]);
    assert BookedRange(s.bookings[0]) == Range(660, 720);
    assert BookedRange(Candidate("C2", RequestAt("11:30"))) == Range(690, 750);
    assert Conflict(Candidate("C2", RequestAt("11:30")), s.bookings[0]);
  }

  lemma TouchingRequestAccepted()
    ensures SubmitBooking(FirstBooked(), "C3", RequestAt("12:00")).Success?
  {
    Time1100();
    Time1200();
    var s := FirstBooked();
    var b := Candidate("C3", RequestAt("12:00"));
    assert StartsInWindow("12:00", s.availability[AvailabilityKey("S1", "D")]);
    assert BookedRange(s.bookings[0]) == Range(660, 720);
    assert BookedRange(b) == Range(720, 780);
    assert !Conflict(b, s.bookings[0]);
    assert Admissible(s, "C3", RequestAt("12:00"));
  }

  /**
   11:00 for an hour is accepted; 11:30 is then refused as overlapping
   11:00-12:00; 12:00 only touches it and is accepted.
   */
  lemma OneHourBlocksOnlyItsHour()
    ensures SubmitBooking(OpenDay(), "C1", RequestAt("11:00")) == Success(FirstBooked())
    ensures FirstBooked().bookings[0].status == Pending
    ensures SubmitBooking(FirstBooked(), "C2", RequestAt("11:30")) == Failure(SlotOverlaps)
    ensures SubmitBooking(FirstBooked(), "C3", RequestAt("12:00")).Success?
  {
    FirstRequestAccepted();
    OverlappingRequestRefused();
    TouchingRequestAccepted();
  }

  /**
   Approving the 11:00 booking leaves it APPROVED; rejecting it afterwards is
   refused because it is no longer PENDING, but cancelling it succeeds and the
   11:00 hour can then be booked again.
   */
  lemma ApprovedCancelThenRebook()
    ensures Approve(FirstBooked(), 0, "", "").Success?
    ensures var approved := Approve(FirstBooked(), 0, "", "").value;
      && approved.bookings[0].status == Approved
      && Reject(approved, 0) == Failure(NotPending)
      && Cancel(approved, 0).Success?
      && SubmitBooking(Cancel(approved, 0).value, "C4", RequestAt("11:00")).Success?
  {
    var approved := Approve(FirstBooked(), 0, "", "").value;
    assert approved.bookings[0].status == Approved;
    CancelledDayIsOpen(Cancel(approved, 0).value);
  }

  /** Once the only booking is cancelled, the 11:00 hour can be booked again. */
  lemma CancelledDayIsOpen(t: State)
    requires t.staff == OpenDay().staff && t.availability == OpenDay().availability
    requires |t.bookings| == 1 && !IsActive(t.bookings[0])
    ensures SubmitBooking(t, "C4", RequestAt("11:00")).Success?
  {
    assert SubmitBooking(OpenDay(), "C4", RequestAt("11:00")).Success? by {
      Time1100();
      assert StartsInWindow("11:00", OpenDay().availability[AvailabilityKey("S1", "D")]);
      assert Admissible(OpenDay(), "C4", RequestAt("11:00"));
    }
    assert t == OpenDay().(bookings := OpenDay().bookings + [t.bookings[0]]);
    InactiveBookingsDoNotBlock(OpenDay(), "C4", RequestAt("11:00"), [t.bookings[0]]);
  }

  /** A start at 11:10 is not on a quarter hour. */
  lemma OffQuarterStartRefused()
    ensures SubmitBooking(OpenDay(), "C1", RequestAt("11:10")) == Failure(NotQuarterHour)
  {
    Time1110();
  }

  /** A staff member without an availability record that day cannot be booked. */
  lemma NoRecordRefused()
    ensures SubmitBooking(OpenDay(), "C1", BookingRequest("S2", "D", "11:00", Some(60), "")) == Failure(NotAvailableOnDate)
  {
  }
}
