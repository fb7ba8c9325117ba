/**
 Bookings and the intervals they occupy: which bookings are active, the
 [start, end) range each active booking holds on its staff member's day, and
 the no-double-booking invariant over a booking list.
 */
module Ledger {
  import opened Wrappers
  import opened TimeGrid
  import opened Intervals

  /** REJECTED also stands for "cancelled"; there is no separate state. */
  datatype Status = Pending | Approved | Rejected

  datatype Booking = Booking(
    clientId: string,
    staffId: string,
    date: string,
    slotTime: string,
    duration: int,
    status: Status,
    message: Option<string>)

  /** Only PENDING and APPROVED bookings hold time on the calendar. */
  predicate IsActive(b: Booking) {
    b.status == Pending || b.status == Approved
  }

  /** The three booking lengths the routes accept, in minutes. */
  predicate IsAllowedDuration(d: int) {
    d == 60 || d == 90 || d == 120
  }

  /** `b.duration || 60`: a zero duration is read as an hour. */
  function EffectiveDuration(d: int): int {
    if d == 0 then 60 else d
  }

  /** The minutes a booking occupies: from its slot time for its duration. */
  function BookedRange(b: Booking): Range {
    var start := TimeToMinutes(b.slotTime);
    Range(start, start + EffectiveDuration(b.duration))
  }

  /** Whether booking b holds time for this staff member on this date. */
  predicate HoldsTime(b: Booking, staffId: string, date: string) {
    IsActive(b) && b.staffId == staffId && b.date == date
  }

  /** The positions of the bookings that hold range r for this staff member on this date. */
  function Holders(bookings: seq<Booking>, staffId: string, date: string, r: Range): set<int> {
    set i | 0 <= i < |bookings| && HoldsTime(bookings[i], staffId, date) && BookedRange(bookings[i]) == r
  }

  /**
   The booked ranges of one staff member on one date, in the order of the
   booking list: one range per active booking of theirs that day, and nothing
   for any other booking. The source's query has no ordering, so only the
   contents and their multiplicities are promised.
   */
  function StaffBookedRanges(bookings: seq<Booking>, staffId: string, date: string): (ranges: seq<Range>)
    ensures |ranges| <= |bookings|
    ensures forall i :: 0 <= i < |bookings| && HoldsTime(bookings[i], staffId, date) ==>
      BookedRange(bookings[i]) in ranges
    ensures forall r :: r in ranges ==>
      exists i :: 0 <= i < |bookings| && HoldsTime(bookings[i], staffId, date) && BookedRange(bookings[i]) == r
    ensures forall r :: multiset(ranges)[r] == |Holders(bookings, staffId, date, r)|
  {
    if bookings == [] then
      assert forall r :: Holders(bookings, staffId, date, r) == {};
      []
    else
      var n := |bookings| - 1;
      var earlier := StaffBookedRanges(bookings[..n], staffId, date);
      assert forall i :: 0 <= i < n ==> bookings[..n][i] == bookings[i];
      CountStep(bookings, staffId, date, earlier);
      if HoldsTime(bookings[n], staffId, date) then earlier + [BookedRange(bookings[n])] else earlier
  }

  /** The per-range counts carry over from a prefix to the whole list. */
  lemma CountStep(bookings: seq<Booking>, staffId: string, date: string, earlier: seq<Range>)
    requires bookings != []
    requires forall r :: multiset(earlier)[r] == |Holders(bookings[..|bookings| - 1], staffId, date, r)|
    ensures var b := bookings[|bookings| - 1];
      var next := if HoldsTime(b, staffId, date) then earlier + [BookedRange(b)] else earlier;
      forall r :: multiset(next)[r] == |Holders(bookings, staffId, date, r)|
  {
    var b := bookings[|bookings| - 1];
    HoldersGrow(bookings, staffId, date);
    if HoldsTime(b, staffId, date) {
      assert multiset(earlier + [BookedRange(b)]) == multiset(earlier) + multiset{BookedRange(b)};
    }
  }

  /** Extending the booking list by one booking adds at most its own position to each holder set. */
  lemma HoldersGrow(bookings: seq<Booking>, staffId: string, date: string)
    requires bookings != []
    ensures var n := |bookings| - 1;
      forall r :: |Holders(bookings, staffId, date, r)|
        == |Holders(bookings[..n], staffId, date, r)|
           + (if HoldsTime(bookings[n], staffId, date) && BookedRange(bookings[n]) == r then 1 else 0)
  {
    forall r {
      HoldersGrowAt(bookings, staffId, date, r);
    }
  }

  lemma HoldersGrowAt(bookings: seq<Booking>, staffId: string, date: string, r: Range)
    requires bookings != []
    ensures var n := |bookings| - 1;
      |Holders(bookings, staffId, date, r)|
        == |Holders(bookings[..n], staffId, date, r)|
           + (if HoldsTime(bookings[n], staffId, date) && BookedRange(bookings[n]) == r then 1 else 0)
  {
    var n := |bookings| - 1;
    var before := Holders(bookings[..n], staffId, date, r);
    var after := Holders(bookings, staffId, date, r);
    var last: set<int> := if HoldsTime(bookings[n], staffId, date) && BookedRange(bookings[n]) == r then {n} else {};
    forall i | i in after
      ensures i in before + last
    {
      if i < n {
        assert bookings[..n][i] == bookings[i];
      }
    }
    forall i | i in before + last
      ensures i in after
    {
      if i in before {
        assert bookings[..n][i] == bookings[i];
      }
    }
    assert after == before + last;
    assert n !in before;
  }

  /** Two bookings collide: both active, same staff member and date, and their ranges share a minute. */
  predicate Conflict(a: Booking, b: Booking) {
    && IsActive(a) && IsActive(b)
    && a.staffId == b.staffId && a.date == b.date
    && Intersects(BookedRange(a).start, BookedRange(a).end, BookedRange(b))
  }

  /** No two distinct active bookings of one staff member on one date overlap. */
  predicate NoDoubleBooking(bookings: seq<Booking>) {
    forall i, j :: 0 <= i < |bookings| && 0 <= j < |bookings| && i != j ==> !Conflict(bookings[i], bookings[j])
  }

  lemma ConflictSymmetric(a: Booking, b: Booking)
    ensures Conflict(a, b) <==> Conflict(b, a)
  {
  }

  /** An inactive booking collides with nothing. */
  lemma InactiveNeverConflicts(a: Booking, b: Booking)
    requires !IsActive(a)
    ensures !Conflict(a, b) && !Conflict(b, a)
  {
  }

  /**
   A minute range overlaps the staff member's booked ranges exactly when it
   meets the range of one of their active bookings that day.
   */
  lemma OverlapsIffBookingMeets(bookings: seq<Booking>, staffId: string, date: string, start: int, end: int)
    ensures Overlaps(start, end, StaffBookedRanges(bookings, staffId, date))
        <==> exists i :: 0 <= i < |bookings| && HoldsTime(bookings[i], staffId, date)
                         && Intersects(start, end, BookedRange(bookings[i]))
  {
    var ranges := StaffBookedRanges(bookings, staffId, date);
    if Overlaps(start, end, ranges) {
      var k :| 0 <= k < |ranges| && Intersects(start, end, ranges[k]);
      assert ranges[k] in ranges;
      var i :| 0 <= i < |bookings| && HoldsTime(bookings[i], staffId, date) && BookedRange(bookings[i]) == ranges[k];
    }
    if exists i :: 0 <= i < |bookings| && HoldsTime(bookings[i], staffId, date)
                   && Intersects(start, end, BookedRange(bookings[i])) {
      var i :| 0 <= i < |bookings| && HoldsTime(bookings[i], staffId, date)
               && Intersects(start, end, BookedRange(bookings[i]));
      var k :| 0 <= k < |ranges| && ranges[k] == BookedRange(bookings[i]);
      assert Intersects(start, end, ranges[k]);
    }
  }

  /**
   The overlap test against the staff member's booked ranges decides exactly
   whether an active candidate collides with an existing booking.
   */
  lemma OverlapsIffConflict(bookings: seq<Booking>, b: Booking)
    requires IsActive(b)
    ensures Overlaps(BookedRange(b).start, BookedRange(b).end, StaffBookedRanges(bookings, b.staffId, b.date))
        <==> exists i :: 0 <= i < |bookings| && Conflict(b, bookings[i])
  {
    OverlapsIffBookingMeets(bookings, b.staffId, b.date, BookedRange(b).start, BookedRange(b).end);
    if exists i :: 0 <= i < |bookings| && Conflict(b, bookings[i]) {
      var i :| 0 <= i < |bookings| && Conflict(b, bookings[i]);
      assert HoldsTime(bookings[i], b.staffId, b.date);
    }
  }

  /** Appending a booking that collides with none of the others keeps the invariant. */
  lemma AppendKeepsNoDoubleBooking(bookings: seq<Booking>, b: Booking)
    requires NoDoubleBooking(bookings)
    requires forall i :: 0 <= i < |bookings| ==> !Conflict(b, bookings[i])
    ensures NoDoubleBooking(bookings + [b])
  {
    var all := bookings + [b];
    forall i, j | 0 <= i < |all| && 0 <= j < |all| && i != j
      ensures !Conflict(all[i], all[j])
    {
      if i == |bookings| {
        assert all[j] == bookings[j];
      } else if j == |bookings| {
        assert all[i] == bookings[i];
        ConflictSymmetric(all[i], b);
      } else {
        assert all[i] == bookings[i] && all[j] == bookings[j];
      }
    }
  }

  /** Replacing a booking by an inactive one keeps the invariant. */
  lemma DeactivateKeepsNoDoubleBooking(bookings: seq<Booking>, id: nat, b: Booking)
    requires NoDoubleBooking(bookings)
    requires id < |bookings| && !IsActive(b)
    ensures NoDoubleBooking(bookings[id := b])
  {
    var all := bookings[id := b];
    forall i, j | 0 <= i < |all| && 0 <= j < |all| && i != j
      ensures !Conflict(all[i], all[j])
    {
      if i == id || j == id {
        InactiveNeverConflicts(b, if i == id then all[j] else all[i]);
      } else {
        assert all[i] == bookings[i] && all[j] == bookings[j];
      }
    }
  }
}
