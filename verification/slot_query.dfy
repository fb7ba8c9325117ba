/**
 GET /staff-available for one date: for each staff member with published
 windows that day, the windows still free for a full hour, the 15-minute grid
 of open / busy / closed slots, and the raw booked ranges. The view is
 advisory; submission checks again.
 */
module SlotQuery {
  import opened Wrappers
  import opened TimeGrid
  import opened Intervals
  import opened Ledger
  import opened Store

  datatype TimeSlot = TimeSlot(time: string, available: bool, busy: bool)

  datatype StaffView = StaffView(
    staffId: string,
    availableSlots: seq<string>,
    allSlots: seq<string>,
    timeSlots: seq<TimeSlot>,
    bookedRanges: seq<Range>)

  /** An hour starting at `start` meets none of the booked ranges. */
  predicate HourIsFree(start: int, ranges: seq<Range>) {
    !Overlaps(start, start + 60, ranges)
  }

  /** a is b with some elements left out, order kept. */
  predicate IsSubsequence<T(==)>(a: seq<T>, b: seq<T>)
    decreases |b|
  {
    || a == []
    || (b != [] && a[|a| - 1] == b[|b| - 1] && IsSubsequence(a[..|a| - 1], b[..|b| - 1]))
    || (b != [] && IsSubsequence(a, b[..|b| - 1]))
  }

  /**
   The windows whose hour meets no booked range, in the order published, each
   kept as often as it was published.
   */
  function AvailableSlots(windows: seq<string>, ranges: seq<Range>): (free: seq<string>)
    ensures IsSubsequence(free, windows)
    ensures forall w :: multiset(free)[w] == if HourIsFree(TimeToMinutes(w), ranges) then multiset(windows)[w] else 0
  {
    if windows == [] then []
    else
      var n := |windows| - 1;
      var earlier := AvailableSlots(windows[..n], ranges);
      assert windows == windows[..n] + [windows[n]];
      if HourIsFree(TimeToMinutes(windows[n]), ranges) then
        var free := earlier + [windows[n]];
        assert free[..|free| - 1] == earlier;
        free
      else earlier
  }

  /** One row of the fine grid: closed, open and free, or open and busy. */
  function Row(time: string, windows: seq<string>, ranges: seq<Range>): (slot: TimeSlot)
    ensures slot.time == time
    ensures !(slot.available && slot.busy)
    ensures !slot.available && !slot.busy <==> !IsInStaffSlots(time, windows)
    ensures slot.busy <==> IsInStaffSlots(time, windows) && !HourIsFree(TimeToMinutes(time), ranges)
  {
    var startMin := TimeToMinutes(time);
    var inSlots := IsInStaffSlots(time, windows);
    var busy := inSlots && Overlaps(startMin, startMin + 60, ranges);
    TimeSlot(time, inSlots && !busy, busy)
  }

  /** The fine grid: one row per lattice point, opened by the window of its hour. */
  function TimeSlots(windows: seq<string>, ranges: seq<Range>): (rows: seq<TimeSlot>)
    ensures |rows| == 40
    ensures forall i :: 0 <= i < 40 ==> rows[i].time == FineSlots()[i]
    ensures forall i :: 0 <= i < 40 ==> !(rows[i].available && rows[i].busy)
    ensures forall i :: 0 <= i < 40 ==>
      (rows[i].available || rows[i].busy <==> Label(11 + i / 4, 0) in windows)
    ensures forall i :: 0 <= i < 40 ==>
      (rows[i].busy <==> Label(11 + i / 4, 0) in windows && !HourIsFree(660 + 15 * i, ranges))
  {
    FineSlotsLattice();
    var all := FineSlots();
    seq(|all|, i requires 0 <= i < |all| => Row(all[i], windows, ranges))
  }

  /** Some active booking of this staff member on this date meets the hour starting at `start`. */
  predicate HourMet(bookings: seq<Booking>, staffId: string, date: string, start: int) {
    exists j :: 0 <= j < |bookings| && HoldsTime(bookings[j], staffId, date)
                && Intersects(start, start + 60, BookedRange(bookings[j]))
  }

  /**
   The view of one staff member's availability record: the windows as
   published, the ranges of their active bookings that day, the windows whose
   hour no such booking meets, and the 40-row grid whose rows are busy exactly
   when their window is open and such a booking meets the hour from the row.
   */
  function ViewFor(s: State, key: AvailabilityKey): (view: StaffView)
    requires key in s.availability
    ensures view.staffId == key.staffId
    ensures view.allSlots == s.availability[key]
    ensures view.bookedRanges == StaffBookedRanges(s.bookings, key.staffId, key.date)
    ensures view.availableSlots == AvailableSlots(view.allSlots, view.bookedRanges)
    ensures view.timeSlots == TimeSlots(view.allSlots, view.bookedRanges)
    ensures forall w :: w in view.availableSlots <==>
      w in s.availability[key] && !HourMet(s.bookings, key.staffId, key.date, TimeToMinutes(w))
    ensures |view.timeSlots| == 40
    ensures forall i :: 0 <= i < 40 ==>
      && (view.timeSlots[i].busy <==>
            Label(11 + i / 4, 0) in s.availability[key] && HourMet(s.bookings, key.staffId, key.date, 660 + 15 * i))
      && (view.timeSlots[i].available <==>
            Label(11 + i / 4, 0) in s.availability[key] && !HourMet(s.bookings, key.staffId, key.date, 660 + 15 * i))
  {
    var windows := s.availability[key];
    var ranges := StaffBookedRanges(s.bookings, key.staffId, key.date);
    ViewMeaning(s.bookings, key.staffId, key.date, windows);
    StaffView(key.staffId, AvailableSlots(windows, ranges), windows, TimeSlots(windows, ranges), ranges)
  }

  /**
   GET /staff-available: a missing date is refused; otherwise a view for each
   staff member whose windows that day are not empty.
   */
  function DayView(s: State, date: string): (r: Result<map<string, StaffView>, Error>)
    ensures r == Failure(MissingFields) <==> date == ""
    ensures r.Success? <==> date != ""
    ensures r.Success? ==> forall staffId :: staffId in r.value <==>
      AvailabilityKey(staffId, date) in s.availability && s.availability[AvailabilityKey(staffId, date)] != []
    ensures r.Success? ==> forall staffId :: staffId in r.value ==>
      AvailabilityKey(staffId, date) in s.availability &&
      r.value[staffId] == ViewFor(s, AvailabilityKey(staffId, date))
  {
    if date == "" then Failure(MissingFields)
    else Success(map k | k in s.availability && k.date == date && s.availability[k] != [] :: k.staffId := ViewFor(s, k))
  }

  /**
   A grid row is busy exactly when its hour window is open and an active
   booking of that staff member on that date meets the hour starting at the
   row; it is available exactly when the window is open and no such booking
   exists.
   */
  lemma GridRowMeaning(bookings: seq<Booking>, staffId: string, date: string, windows: seq<string>, i: nat)
    requires i < 40
    ensures var row := TimeSlots(windows, StaffBookedRanges(bookings, staffId, date))[i];
      var open := Label(11 + i / 4, 0) in windows;
      && (row.busy <==> open && HourMet(bookings, staffId, date, 660 + 15 * i))
      && (row.available <==> open && !HourMet(bookings, staffId, date, 660 + 15 * i))
  {
    OverlapsIffBookingMeets(bookings, staffId, date, 660 + 15 * i, 720 + 15 * i);
  }

  /**
   A published window is offered as free exactly when no active booking of
   that staff member on that date meets the hour it starts.
   */
  lemma AvailableSlotMeaning(bookings: seq<Booking>, staffId: string, date: string, windows: seq<string>, w: string)
    ensures w in AvailableSlots(windows, StaffBookedRanges(bookings, staffId, date)) <==>
      w in windows && !HourMet(bookings, staffId, date, TimeToMinutes(w))
  {
    var free := AvailableSlots(windows, StaffBookedRanges(bookings, staffId, date));
    OverlapsIffBookingMeets(bookings, staffId, date, TimeToMinutes(w), TimeToMinutes(w) + 60);
    assert w in free <==> multiset(free)[w] > 0;
    assert w in windows <==> multiset(windows)[w] > 0;
  }

  /** Both meanings at once, for every window and every grid row. */
  lemma ViewMeaning(bookings: seq<Booking>, staffId: string, date: string, windows: seq<string>)
    ensures var ranges := StaffBookedRanges(bookings, staffId, date);
      && (forall w :: w in AvailableSlots(windows, ranges) <==>
            w in windows && !HourMet(bookings, staffId, date, TimeToMinutes(w)))
      && (forall i :: 0 <= i < 40 ==>
            && (TimeSlots(windows, ranges)[i].busy <==>
                  Label(11 + i / 4, 0) in windows && HourMet(bookings, staffId, date, 660 + 15 * i))
            && (TimeSlots(windows, ranges)[i].available <==>
                  Label(11 + i / 4, 0) in windows && !HourMet(bookings, staffId, date, 660 + 15 * i)))
  {
    forall w {
      AvailableSlotMeaning(bookings, staffId, date, windows, w);
    }
    forall i | 0 <= i < 40 {
      GridRowMeaning(bookings, staffId, date, windows, i);
    }
  }
}
