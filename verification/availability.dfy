/**
 Publishing a staff member's hourly windows for one date: an upsert keyed by
 (staff, date) that replaces the whole window list.
 */
module Availability {
  import opened Wrappers
  import opened TimeGrid
  import opened Store

  /** The windows used when the request carries no array: every hour from 11:00 to 21:00. */
  const DefaultSlots: seq<string> :=
    ["11:00", "12:00", "13:00", "14:00", "15:00", "16:00",
     "17:00", "18:00", "19:00", "20:00", "21:00"]

  /**
   `Array.isArray(slots) ? slots : DEFAULT_SLOTS`. A request whose `slots` is
   not an array is None.
   */
  function SlotsToSave(slots: Option<seq<string>>): (windows: seq<string>)
    ensures slots.Some? ==> windows == slots.value
    ensures slots.None? ==> windows == DefaultSlots
    ensures slots.None? ==> |windows| == 11 && windows[0] == "11:00" && windows[10] == "21:00"
  {
    if slots.Some? then slots.value else DefaultSlots
  }

  /** POST /availability. */
  function SetAvailability(s: State, staffId: string, date: string, slots: Option<seq<string>>): (r: Result<State, Error>)
    ensures r == Failure(MissingFields) <==> staffId == "" || date == ""
    ensures r == Failure(StaffNotFound) <==> staffId != "" && date != "" && staffId !in s.staff
    ensures r.Success? <==> staffId != "" && date != "" && staffId in s.staff
    ensures r.Success? ==>
      && r.value.staff == s.staff
      && r.value.bookings == s.bookings
      && r.value.availability.Keys == s.availability.Keys + {AvailabilityKey(staffId, date)}
      && r.value.availability[AvailabilityKey(staffId, date)] == SlotsToSave(slots)
      && forall k :: k in s.availability && k != AvailabilityKey(staffId, date) ==>
           r.value.availability[k] == s.availability[k]
  {
    if staffId == "" || date == "" then Failure(MissingFields)
    else if staffId !in s.staff then Failure(StaffNotFound)
    else Success(s.(availability := s.availability[AvailabilityKey(staffId, date) := SlotsToSave(slots)]))
  }

  /** Every default window is an hour label of the form "HH:00", from 11 to 21. */
  lemma DefaultSlotsAreHours()
    ensures |DefaultSlots| == 11
    ensures forall i :: 0 <= i < 11 ==> DefaultSlots[i] == Label(11 + i, 0)
  {
    forall i | 0 <= i < 11
      ensures DefaultSlots[i] == Label(11 + i, 0)
    {
      HourLabelLiteral(11 + i);
    }
  }

  lemma HourLabelLiteral(h: nat)
    requires 10 <= h < 100
    ensures Label(h, 0) == [JsText.DigitChar(h / 10), JsText.DigitChar(h % 10), ':', '0', '0']
  {
    NatToStringLiteral(h, [JsText.DigitChar(h / 10), JsText.DigitChar(h % 10)]);
    NatToStringLiteral(0, "0");
  }

  /** Setting the same windows twice leaves the same state as setting them once. */
  lemma SetAvailabilityIdempotent(s: State, staffId: string, date: string, slots: Option<seq<string>>)
    requires SetAvailability(s, staffId, date, slots).Success?
    ensures var once := SetAvailability(s, staffId, date, slots).value;
      SetAvailability(once, staffId, date, slots) == Success(once)
  {
    var key := AvailabilityKey(staffId, date);
    var once := SetAvailability(s, staffId, date, slots).value;
    assert once.availability[key := SlotsToSave(slots)] == once.availability;
  }

  /** A later call for the same (staff, date) replaces the earlier windows entirely. */
  lemma SetAvailabilityLastWins(s: State, staffId: string, date: string, first: Option<seq<string>>, second: Option<seq<string>>)
    requires SetAvailability(s, staffId, date, first).Success?
    ensures SetAvailability(SetAvailability(s, staffId, date, first).value, staffId, date, second)
         == SetAvailability(s, staffId, date, second)
  {
    var key := AvailabilityKey(staffId, date);
    assert s.availability[key := SlotsToSave(first)][key := SlotsToSave(second)]
        == s.availability[key := SlotsToSave(second)];
  }
}
