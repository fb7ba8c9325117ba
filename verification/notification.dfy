/** The 12-hour clock rendering used in booking notifications. */
module Notification {
  import opened Wrappers
  import opened JsText
  import opened TimeGrid

  /** "AM" before noon, "PM" from noon on. */
  function Period(hour: int): string {
    if hour < 12 then "AM" else "PM"
  }

  /** The 12-hour clock hour: 0 becomes 12, hours past 12 lose 12, others stay. */
  function Hour12(hour: int): int {
    if hour == 0 then 12 else if hour > 12 then hour - 12 else hour
  }

  /** Reading a 12-hour clock hour and period back as a 24-hour hour. */
  function To24(hour12: int, period: string): int {
    if period == "AM" then (if hour12 == 12 then 0 else hour12)
    else (if hour12 == 12 then 12 else hour12 + 12)
  }

  /**
   formatTimeAMPM: "" for an empty time; otherwise the unpadded 12-hour hour,
   ':', the minute padded to two digits, a space and the period. A missing or
   non-numeric hour or minute counts as 0.
   */
  function FormatTimeAMPM(t: string): (r: string)
    ensures t == "" <==> r == ""
  {
    if t == "" then "" else Render(OrZero(HourOf(t)), OrZero(MinuteOf(t)))
  }

  /** The rendering of a read hour and minute. */
  function Render(hour: int, min: int): string {
    IntToString(Hour12(hour)) + ":" + PadStart2(IntToString(min)) + " " + Period(hour)
  }

  /** The rendering ends in " AM" exactly when the hour read is before noon, and in " PM" otherwise. */
  lemma FormatEndsWithPeriod(t: string)
    requires t != ""
    ensures var r := FormatTimeAMPM(t);
      && |r| >= 6
      && r[|r| - 3..] == " " + Period(OrZero(HourOf(t)))
      && (r[|r| - 2..] == "AM" <==> OrZero(HourOf(t)) < 12)
  {
    var hour := OrZero(HourOf(t));
    var r := FormatTimeAMPM(t);
    var head := IntToString(Hour12(hour)) + ":" + PadStart2(IntToString(OrZero(MinuteOf(t))));
    assert r == head + (" " + Period(hour));
    assert r[|r| - 3..] == " " + Period(hour);
  }

  /**
   For every 24-hour hour the 12-hour hour lies in 1..12, and it reads back,
   together with its period, as the original hour.
   */
  lemma ClockRoundTrip(hour: int)
    requires 0 <= hour <= 23
    ensures 1 <= Hour12(hour) <= 12
    ensures To24(Hour12(hour), Period(hour)) == hour
  {
  }

  /**
   A well-formed "HH:MM" renders as the unpadded 12-hour hour, the two-digit
   minute and the period.
   */
  lemma FormatClockTime(h: nat, m: nat)
    requires h <= 23 && m <= 59
    ensures FormatTimeAMPM(Label(h, m))
         == NatToString(Hour12(h)) + ":" + [DigitChar(m / 10), DigitChar(m % 10)] + " " + Period(h)
  {
    LabelFields(Label(h, m), h, m);
    TwoDigits(m);
    assert Label(h, m) != "";
    assert IntToString(m) == NatToString(m);
    assert IntToString(Hour12(h)) == NatToString(Hour12(h));
  }

  /**
   "13:05" renders as "1:05 PM". The clock string comes in as a parameter pinned
   by its requires rather than as a literal in the ensures, so that the
   verifier unfolds the parser on a variable and the proof stays small.
   */
  lemma FormatAfternoonExample(t: string)
    requires t == "13:05"
    ensures FormatTimeAMPM(t) == "1:05 PM"
  {
    AfternoonFields(t);
    FormatFromFields(t, 13, 5);
    AfternoonPieces(13, 5);
  }

  /** "13:05", given as a pinned parameter for the same reason, reads as hour 13 and minute 5. */
  lemma AfternoonFields(t: string)
    requires t == "13:05"
    ensures HourOf(t) == Some(13) && MinuteOf(t) == Some(5)
  {
    ClockLiteral(13, 5);
    LabelFields(t, 13, 5);
  }

  /** Hour 13 and minute 5, pinned by the requires, render piece by piece as "1:05 PM". */
  lemma AfternoonPieces(hour: int, min: int)
    requires hour == 13 && min == 5
    ensures IntToString(Hour12(hour)) + ":" + PadStart2(IntToString(min)) + " " + Period(hour) == "1:05 PM"
  {
    assert IntToString(Hour12(hour)) == "1";
    assert PadStart2(IntToString(min)) == "05";
    assert Period(hour) == "PM";
  }

  /** With both parts read, the rendering is the 12-hour hour, the padded minute and the period. */
  lemma FormatFromFields(t: string, hour: int, min: int)
    requires t != "" && HourOf(t) == Some(hour) && MinuteOf(t) == Some(min)
    ensures FormatTimeAMPM(t) == IntToString(Hour12(hour)) + ":" + PadStart2(IntToString(min)) + " " + Period(hour)
  {
  }

  /**
   The rendering can be read back: the text before ':' is the 12-hour hour,
   which with the trailing period gives the hour of the day, and the two
   characters after ':' are the minute.
   */
  lemma FormatReadsBack(t: string)
    requires t != ""
    requires 0 <= OrZero(HourOf(t)) <= 23 && 0 <= OrZero(MinuteOf(t)) <= 99
    ensures var r := FormatTimeAMPM(t);
      var hourText := Split(r, ':')[0];
      && |hourText| + 3 <= |r|
      && JsNumber(hourText).Some?
      && To24(JsNumber(hourText).value, r[|r| - 2..]) == OrZero(HourOf(t))
      && JsNumber(r[|hourText| + 1..|hourText| + 3]) == Some(OrZero(MinuteOf(t)))
  {
    var hour := OrZero(HourOf(t));
    var min := OrZero(MinuteOf(t));
    RenderHourText(hour, min);
    RenderMinuteText(hour, min);
    RenderPeriod(hour, min);
    ClockRoundTrip(hour);
  }

  lemma RenderHourText(hour: int, min: int)
    requires 0 <= hour <= 23
    ensures Split(Render(hour, min), ':')[0] == IntToString(Hour12(hour))
    ensures JsNumber(IntToString(Hour12(hour))) == Some(Hour12(hour))
  {
    var hourText := IntToString(Hour12(hour));
    var rest := PadStart2(IntToString(min)) + " " + Period(hour);
    assert hourText == NatToString(Hour12(hour));
    NatToStringDigits(Hour12(hour));
    DigitsExclude(hourText, ':');
    assert Render(hour, min) == hourText + [':'] + rest;
    SplitFirst(hourText, rest, ':');
    NumberToStringRoundTrip(Hour12(hour));
  }

  lemma RenderMinuteText(hour: int, min: int)
    requires 0 <= min <= 99
    ensures var k := |IntToString(Hour12(hour))|;
      && k + 3 <= |Render(hour, min)|
      && Render(hour, min)[k + 1..k + 3] == PadStart2(IntToString(min))
      && JsNumber(PadStart2(IntToString(min))) == Some(min)
  {
    var hourText := IntToString(Hour12(hour));
    var minText := PadStart2(IntToString(min));
    assert IntToString(min) == NatToString(min);
    TwoDigits(min);
    assert Render(hour, min) == hourText + ":" + minText + (" " + Period(hour));
  }

  lemma RenderPeriod(hour: int, min: int)
    ensures |Render(hour, min)| >= 2
    ensures Render(hour, min)[|Render(hour, min)| - 2..] == Period(hour)
  {
    var head := IntToString(Hour12(hour)) + ":" + PadStart2(IntToString(min)) + " ";
    assert Render(hour, min) == head + Period(hour);
  }

  /** Without a ':' the minute is missing, counts as 0, and renders as ":00". */
  lemma FormatWithoutMinutes(t: string)
    requires t != "" && ':' !in t
    ensures var hour := OrZero(JsNumber(t));
      FormatTimeAMPM(t) == IntToString(Hour12(hour)) + ":00 " + Period(hour)
  {
    SplitNoSeparator(t, ':');
    var hour := OrZero(JsNumber(t));
    assert HourOf(t) == JsNumber(t) && MinuteOf(t) == None;
    assert PadStart2(IntToString(0)) == "00";
    assert IntToString(Hour12(hour)) + ":" + "00" + " " + Period(hour)
        == IntToString(Hour12(hour)) + ":00 " + Period(hour);
  }

  /** A time that is not a number at all renders as midnight. */
  lemma FormatNonNumericExample()
    ensures FormatTimeAMPM("abc") == "12:00 AM"
  {
    SplitNoSeparator("abc", ':');
    assert HourOf("abc") == None;
    assert MinuteOf("abc") == None;
    assert NatToString(12) == "12" by {
      NatToStringLiteral(12, "12");
    }
    assert PadStart2(IntToString(0)) == "00";
    assert FormatTimeAMPM("abc") == "12" + ":" + "00" + " " + "AM";
    assert "12" + ":" + "00" + " " + "AM" == "12:00 AM";
  }
}
