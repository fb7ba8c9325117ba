/**
 Clock strings and the fixed booking lattice of the slot routes: parsing
 "HH:MM" to minutes of the day, the 15-minute grid from 11:00 to 20:45, and
 flooring a time to the hour label a staff member publishes as a window.
 */
module TimeGrid {
  import opened Wrappers
  import opened JsText

  /** The hour part of `time.split(':').map(Number)`; NaN when it is not a number. */
  function HourOf(time: string): Option<int> {
    Field(Split(time, ':'), 0)
  }

  /** The minute part of `time.split(':').map(Number)`; NaN when absent or not a number. */
  function MinuteOf(time: string): Option<int> {
    Field(Split(time, ':'), 1)
  }

  /**
   Minutes since midnight of "HH:MM". A missing or non-numeric part counts as
   0, so every string has a value. The routes declare this helper twice with
   the same body; both paths use this one definition.
   */
  function TimeToMinutes(t: string): int {
    OrZero(HourOf(t)) * 60 + OrZero(MinuteOf(t))
  }

  /** The zero-padded clock string "HH:MM" for hour h and minute m. */
  function Label(h: nat, m: nat): string {
    PadStart2(NatToString(h)) + ":" + PadStart2(NatToString(m))
  }

  /** The hour window label `${String(h).padStart(2, '0')}:00`; a NaN hour gives "NaN:00". */
  function HourLabel(h: Option<int>): string {
    PadStart2(NumberToString(h)) + ":00"
  }

  /** Whether the hour window containing `time` is among the staff member's windows. */
  predicate IsInStaffSlots(time: string, windows: seq<string>) {
    HourLabel(HourOf(time)) in windows
  }

  /**
   The 15-minute lattice: 40 slots, slot i at hour 11 + i / 4 and minute
   15 * (i % 4). The grid opens at 11:00 (minute 660) and its last hour is 20.
   */
  function FineSlots(): seq<string> {
    seq(40, i requires 0 <= i < 40 => Label(11 + i / 4, 15 * (i % 4)))
  }

  predicate IsQuarter(m: int) {
    m == 0 || m == 15 || m == 30 || m == 45
  }

  /** A two-digit hour and minute survive the trip through Label and the parser. */
  lemma LabelSplit(h: nat, m: nat)
    requires h < 100 && m < 100
    ensures Split(Label(h, m), ':') == [PadStart2(NatToString(h)), PadStart2(NatToString(m))]
  {
    var hs := PadStart2(NatToString(h));
    var ms := PadStart2(NatToString(m));
    PaddedDigits(h);
    PaddedDigits(m);
    DigitsExclude(hs, ':');
    DigitsExclude(ms, ':');
    assert Label(h, m) == hs + [':'] + ms;
    SplitTwo(hs, ms, ':');
  }

  /** A clock string spelling hour h and minute m reads back as h and m. */
  lemma LabelFields(t: string, h: nat, m: nat)
    requires h < 100 && m < 100 && t == Label(h, m)
    ensures HourOf(t) == Some(h)
    ensures MinuteOf(t) == Some(m)
    ensures TimeToMinutes(t) == 60 * h + m
  {
    LabelSplit(h, m);
    assert HourOf(t) == Some(h) by {
      TwoDigits(h);
    }
    assert MinuteOf(t) == Some(m) by {
      TwoDigits(m);
    }
  }

  /** Flooring a clock string to its hour gives the label of minute 0 of that hour. */
  lemma HourLabelOfLabel(t: string, h: nat, m: nat)
    requires h < 100 && m < 100 && t == Label(h, m)
    ensures HourLabel(HourOf(t)) == Label(h, 0)
  {
    LabelFields(t, h, m);
    HourLabelOfHour(h);
    LabelOnTheHour(h);
  }

  lemma HourLabelOfHour(h: nat)
    ensures HourLabel(Some(h)) == PadStart2(NatToString(h)) + ":00"
  {
    assert NumberToString(Some(h)) == NatToString(h);
  }

  lemma LabelOnTheHour(h: nat)
    ensures Label(h, 0) == PadStart2(NatToString(h)) + ":00"
  {
    assert PadStart2(NatToString(0)) == "00" by {
      assert NatToString(0) == ['0'];
    }
    assert Label(h, 0) == PadStart2(NatToString(h)) + ":" + "00";
  }

  /** "HH:MM" with both parts free of ':' parses each part with Number, defaulting NaN to 0. */
  lemma TimeToMinutesOfParts(hs: string, ms: string)
    requires ':' !in hs && ':' !in ms
    ensures TimeToMinutes(hs + ":" + ms) == OrZero(JsNumber(hs)) * 60 + OrZero(JsNumber(ms))
  {
    SplitTwo(hs, ms, ':');
  }

  /** Without a ':' the minute part is missing and contributes 0. */
  lemma TimeToMinutesWithoutMinutes(hs: string)
    requires ':' !in hs
    ensures TimeToMinutes(hs) == OrZero(JsNumber(hs)) * 60
  {
    SplitNoSeparator(hs, ':');
  }

  lemma FineSlotAt(i: nat)
    requires i < 40
    ensures FineSlots()[i] == Label(11 + i / 4, 15 * (i % 4))
    ensures HourOf(FineSlots()[i]) == Some(11 + i / 4)
    ensures MinuteOf(FineSlots()[i]) == Some(15 * (i % 4))
    ensures TimeToMinutes(FineSlots()[i]) == 660 + 15 * i
    ensures HourLabel(HourOf(FineSlots()[i])) == Label(11 + i / 4, 0)
  {
    var h: nat := 11 + i / 4;
    var m: nat := 15 * (i % 4);
    assert i == 4 * (i / 4) + i % 4 && i % 4 < 4 && i / 4 < 10;
    assert h < 100 && m < 100;
    assert FineSlots()[i] == Label(h, m);
    LabelFields(FineSlots()[i], h, m);
    HourLabelOfLabel(FineSlots()[i], h, m);
    assert 60 * h + m == 660 + 15 * i;
  }

  /**
   The lattice has 40 points from "11:00" to "20:45", 15 minutes apart, each
   on a quarter hour, and its hour labels run from "11:00" to "20:00".
   */
  lemma FineSlotsLattice()
    ensures |FineSlots()| == 40
    ensures FineSlots()[0] == "11:00" && FineSlots()[39] == "20:45"
    ensures forall i :: 0 <= i < 40 ==> TimeToMinutes(FineSlots()[i]) == 660 + 15 * i
    ensures forall i :: 0 <= i < 40 ==>
      MinuteOf(FineSlots()[i]).Some? && IsQuarter(MinuteOf(FineSlots()[i]).value)
    ensures forall i :: 0 <= i < 40 ==>
      HourLabel(HourOf(FineSlots()[i])) == Label(11 + i / 4, 0)
  {
    forall i | 0 <= i < 40
      ensures TimeToMinutes(FineSlots()[i]) == 660 + 15 * i
      ensures MinuteOf(FineSlots()[i]).Some? && IsQuarter(MinuteOf(FineSlots()[i]).value)
      ensures HourLabel(HourOf(FineSlots()[i])) == Label(11 + i / 4, 0)
    {
      FineSlotAt(i);
    }
    FineSlotAt(0);
    FineSlotAt(39);
    LiteralLabels();
  }

  lemma LiteralLabels()
    ensures Label(11, 0) == "11:00"
    ensures Label(20, 45) == "20:45"
  {
    OpeningLabel();
    ClosingLabel();
  }

  lemma OpeningLabel()
    ensures Label(11, 0) == "11:00"
  {
    NatToStringLiteral(11, "11");
    NatToStringLiteral(0, "0");
  }

  lemma ClosingLabel()
    ensures Label(20, 45) == "20:45"
  {
    NatToStringLiteral(20, "20");
    NatToStringLiteral(45, "45");
  }

  /** The characters of a two-digit clock label. */
  lemma ClockLiteral(h: nat, m: nat)
    requires h < 100 && m < 100
    ensures Label(h, m) == [DigitChar(h / 10), DigitChar(h % 10), ':', DigitChar(m / 10), DigitChar(m % 10)]
  {
    TwoDigits(h);
    TwoDigits(m);
  }

  lemma NatToStringLiteral(n: nat, s: string)
    requires n < 100
    requires s == if n < 10 then [DigitChar(n)] else [DigitChar(n / 10), DigitChar(n % 10)]
    ensures NatToString(n) == s
  {
    if n >= 10 {
      assert NatToString(n / 10) == [DigitChar(n / 10)];
    }
  }

  /**
   generate15MinSlots: hours 11 to 20, minutes stepping by 15 below 60, with
   an early exit after 20:45 that can never be taken.
   */
  method Generate15MinSlots() returns (list: seq<string>)
    ensures list == FineSlots()
    ensures |list| == 40
    ensures forall i :: 0 <= i < |list| ==> TimeToMinutes(list[i]) == 660 + 15 * i
  {
    list := [];
    var h: nat := 11;
    while h <= 20
      invariant 11 <= h <= 21
      invariant |list| == 4 * (h - 11)
      invariant list == FineSlots()[..|list|]
    {
      var m: nat := 0;
      ghost var q: nat := 0;
      while m < 60
        invariant q <= 4 && m == 15 * q
        invariant |list| == 4 * (h - 11) + q
        invariant list == FineSlots()[..|list|]
      {
        // The source leaves the loop when h is 20 and m exceeds 45; m never does.
        assert !(h == 20 && m > 45);
        FineSlotOf(h - 11, q);
        PrefixExtend(FineSlots(), |list|);
        list := list + [Label(h, m)];
        m := m + 15;
        q := q + 1;
      }
      h := h + 1;
    }
    FineSlotsLattice();
  }

  lemma FineSlotOf(a: nat, q: nat)
    requires a < 10 && q < 4
    ensures 4 * a + q < |FineSlots()|
    ensures FineSlots()[4 * a + q] == Label(11 + a, 15 * q)
  {
    var i := 4 * a + q;
    assert i / 4 == a && i % 4 == q;
  }

  lemma PrefixExtend<T>(s: seq<T>, k: nat)
    requires k < |s|
    ensures s[..k] + [s[k]] == s[..k + 1]
  {
  }
}
