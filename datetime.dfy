/** `parseTimeLabelToDate`: a grid label such as "8:30 pm" placed on a base
    calendar day, as a local date-time (year, month, day, hours, minutes, 0, 0). */
module Datetime {
  import opened JsText
  import TimeSlots

  /** The local calendar day of `new Date(baseDateISO)`. */
  datatype CalendarDate = CalendarDate(year: int, month: int, day: int)

  /** The fields handed to `new Date(y, m, d, h, min, s, ms)`, or the Invalid
      Date a NaN hour produces. */
  datatype LocalDate =
    | LocalDate(year: int, month: int, day: int, hours: int, minutes: int, seconds: int, millis: int)
    | InvalidDate

  /** The meridiem rule: 12 am is hour 0, 1-11 pm gain 12, and any other
      meridiem (or none) leaves the hour as parsed. */
  function To24(hours: int, meridiem: string): (r: int)
    ensures meridiem != "am" && meridiem != "pm" ==> r == hours
    ensures (meridiem == "am" || meridiem == "pm") && 1 <= hours <= 12 ==>
      0 <= r < 24 && TimeSlots.Hour12(r) == hours && TimeSlots.Period(r) == meridiem
  {
    if meridiem == "am" then (if hours == 12 then 0 else hours)
    else if meridiem == "pm" then (if hours != 12 then hours + 12 else hours)
    else hours
  }

  /** `parseTimeLabelToDate(baseDateISO, timeLabel)` on the base day's fields. */
  function ParseTimeLabelToDate(base: CalendarDate, timeLabel: string): (r: LocalDate)
    ensures r.LocalDate? ==>
      r.year == base.year && r.month == base.month && r.day == base.day && r.seconds == 0 && r.millis == 0
  {
    var parts := Split(Trim(timeLabel), ' ');
    DateAt(base, parts[0], if |parts| < 2 then "" else ToLower(parts[1]))
  }

  /** The "h:mm" part placed on the base day: NaN minutes (or none) become 0,
      a NaN hour gives the Invalid Date. */
  function DateAt(base: CalendarDate, time: string, meridiem: string): (r: LocalDate)
    ensures r.LocalDate? ==>
      r.year == base.year && r.month == base.month && r.day == base.day && r.seconds == 0 && r.millis == 0
  {
    var hm := Split(time, ':');
    var hours := ParseInt(hm[0]);
    var minutes := if |hm| < 2 then None else ParseInt(hm[1]);
    if hours.None? then InvalidDate
    else LocalDate(base.year, base.month, base.day, To24(hours.value, meridiem),
                   if minutes.None? then 0 else minutes.value, 0, 0)
  }

  predicate NoSpace(s: string) {
    forall i :: 0 <= i < |s| ==> !IsSpace(s[i])
  }

  lemma DateAtDigits(base: CalendarDate, n: string, mm: string, meridiem: string)
    requires n != [] && AllDigits(n) && mm != [] && AllDigits(mm)
    ensures DateAt(base, n + [':'] + mm, meridiem) ==
      LocalDate(base.year, base.month, base.day, To24(DigitsValue(n), meridiem), DigitsValue(mm), 0, 0)
  {
    TimeSlots.DigitsHaveNo(n, ':');
    TimeSlots.DigitsHaveNo(mm, ':');
    SplitFirst(n, ':', mm);
    SplitNoSeparator(mm, ':');
    TimeSlots.ParseDigits(n);
    TimeSlots.ParseDigits(mm);
  }

  /** A label "n:mm mer" converts to hour `To24(n, lower-cased mer)` and minute `mm`. */
  lemma ParseWellFormedLabel(base: CalendarDate, n: string, mm: string, mer: string)
    requires n != [] && AllDigits(n) && mm != [] && AllDigits(mm)
    requires mer != [] && NoSpace(mer)
    ensures ParseTimeLabelToDate(base, n + [':'] + mm + [' '] + mer) ==
      LocalDate(base.year, base.month, base.day, To24(DigitsValue(n), ToLower(mer)), DigitsValue(mm), 0, 0)
  {
    var time := n + [':'] + mm;
    var text := time + [' '] + mer;
    assert text[0] == n[0];
    assert text[|text| - 1] == mer[|mer| - 1];
    TrimUnpadded(text);
    TimeSlots.SplitLabelParts(n, mm, mer);
    var parts := Split(text, ' ');
    assert parts[0] == time && parts[1] == mer;
    assert ParseTimeLabelToDate(base, text) == DateAt(base, time, ToLower(mer));
    DateAtDigits(base, n, mm, ToLower(mer));
  }

  /** The hour conversion on a label "n:mm mer": 12 am is 0, 1-11 am keep
      their hour, 12 pm is 12, 1-11 pm gain 12, any other meridiem leaves the
      hour alone; the minute is `mm`. */
  lemma HourConversion(base: CalendarDate, n: string, mm: string, mer: string)
    requires n != [] && AllDigits(n) && mm != [] && AllDigits(mm)
    requires mer != [] && NoSpace(mer)
    ensures var r := ParseTimeLabelToDate(base, n + [':'] + mm + [' '] + mer);
      var h := DigitsValue(n);
      var m := ToLower(mer);
      && r.LocalDate?
      && (m == "am" && h == 12 ==> r.hours == 0)
      && (m == "am" && 1 <= h <= 11 ==> r.hours == h)
      && (m == "pm" && h == 12 ==> r.hours == 12)
      && (m == "pm" && 1 <= h <= 11 ==> r.hours == h + 12)
      && (m != "am" && m != "pm" ==> r.hours == h)
      && r.minutes == DigitsValue(mm)
  {
    ParseWellFormedLabel(base, n, mm, mer);
  }

  /** The meridiem is matched without regard to case: "8:00 PM" is "8:00 pm". */
  lemma MeridiemIgnoresCase(base: CalendarDate, n: string, mm: string, mer1: string, mer2: string)
    requires n != [] && AllDigits(n) && mm != [] && AllDigits(mm)
    requires mer1 != [] && NoSpace(mer1) && mer2 != [] && NoSpace(mer2)
    requires ToLower(mer1) == ToLower(mer2)
    ensures ParseTimeLabelToDate(base, n + [':'] + mm + [' '] + mer1) ==
            ParseTimeLabelToDate(base, n + [':'] + mm + [' '] + mer2)
  {
    ParseWellFormedLabel(base, n, mm, mer1);
    ParseWellFormedLabel(base, n, mm, mer2);
  }

  /** White space around the label does not matter. */
  lemma SurroundingSpaceIgnored(base: CalendarDate, timeLabel: string)
    ensures ParseTimeLabelToDate(base, timeLabel) == ParseTimeLabelToDate(base, Trim(timeLabel))
  {
    TrimIdempotent(timeLabel);
  }

  /** A label "n mer" without minutes lands on the full hour. */
  lemma MissingMinutesAreZero(base: CalendarDate, n: string, mer: string)
    requires n != [] && AllDigits(n)
    requires mer != [] && NoSpace(mer)
    ensures ParseTimeLabelToDate(base, n + [' '] + mer) ==
      LocalDate(base.year, base.month, base.day, To24(DigitsValue(n), ToLower(mer)), 0, 0, 0)
  {
    var text := n + [' '] + mer;
    assert text[0] == n[0];
    assert text[|text| - 1] == mer[|mer| - 1];
    TrimUnpadded(text);
    TimeSlots.DigitsHaveNo(n, ' ');
    TimeSlots.DigitsHaveNo(n, ':');
    assert ' ' !in mer;
    SplitFirst(n, ' ', mer);
    SplitNoSeparator(mer, ' ');
    SplitNoSeparator(n, ':');
    TimeSlots.ParseDigits(n);
  }

  /** Minutes that `parseInt` reads as NaN ("8:xx pm") also become 0. */
  lemma NonNumericMinutesAreZero(base: CalendarDate, n: string, mm: string, mer: string)
    requires n != [] && AllDigits(n)
    requires mm != [] && NoSpace(mm) && ':' !in mm && ParseInt(mm).None?
    requires mer != [] && NoSpace(mer)
    ensures ParseTimeLabelToDate(base, n + [':'] + mm + [' '] + mer) ==
      LocalDate(base.year, base.month, base.day, To24(DigitsValue(n), ToLower(mer)), 0, 0, 0)
  {
    var time := n + [':'] + mm;
    var text := time + [' '] + mer;
    assert text[0] == n[0];
    assert text[|text| - 1] == mer[|mer| - 1];
    TrimUnpadded(text);
    TimeSlots.DigitsHaveNo(n, ' ');
    TimeSlots.DigitsHaveNo(n, ':');
    assert ' ' !in time;
    assert ' ' !in mer;
    SplitFirst(time, ' ', mer);
    SplitNoSeparator(mer, ' ');
    SplitFirst(n, ':', mm);
    SplitNoSeparator(mm, ':');
    TimeSlots.ParseDigits(n);
    var parts := Split(text, ' ');
    assert parts[0] == time && parts[1] == mer;
    var hm := Split(time, ':');
    assert hm == [n, mm];
  }

  /** A label without a meridiem ("14:30") keeps the hour as written. */
  lemma NoMeridiemKeepsHour(base: CalendarDate, n: string, mm: string)
    requires n != [] && AllDigits(n) && mm != [] && AllDigits(mm)
    ensures ParseTimeLabelToDate(base, n + [':'] + mm) ==
      LocalDate(base.year, base.month, base.day, DigitsValue(n), DigitsValue(mm), 0, 0)
  {
    var text := n + [':'] + mm;
    assert text[0] == n[0];
    assert text[|text| - 1] == mm[|mm| - 1];
    TrimUnpadded(text);
    TimeSlots.DigitsHaveNo(n, ' ');
    TimeSlots.DigitsHaveNo(mm, ' ');
    assert ' ' !in text;
    SplitNoSeparator(text, ' ');
    DateAtDigits(base, n, mm, "");
  }

  /** An empty label has no hour, so the result is the Invalid Date. */
  lemma EmptyLabelIsInvalid(base: CalendarDate)
    ensures ParseTimeLabelToDate(base, "") == InvalidDate
  {
    assert Trim("") == "";
    assert Split("", ' ') == [""];
    assert Split("", ':') == [""];
  }

  /** The meridiem rule undoes the 12-hour rendering of the generator. */
  lemma To24OfHour12(h: nat)
    requires h < 24
    ensures To24(TimeSlots.Hour12(h), TimeSlots.Period(h)) == h
  {
  }

  /** Every generated grid label converts to an hour in 0..23 and a minute of
      0 or 30; it is the same time of day `labelToMinutes` gives, midnight read
      as minute 0. */
  lemma GridLabelDates(base: CalendarDate, i: nat)
    requires i < TimeSlots.SlotCount
    ensures var r := ParseTimeLabelToDate(base, TimeSlots.Times()[i]);
      && r.LocalDate?
      && 0 <= r.hours <= 23
      && (r.minutes == 0 || r.minutes == 30)
      && r.hours * 60 + r.minutes == TimeSlots.GridMinutes(i) % (24 * 60)
  {
    GridLabelFields(base, i);
    assert TimeSlots.Times()[i] == TimeSlots.SlotAt(i);
    GridClock(i);
  }

  /** Grid label `i` lands on hour 8 + i/2 (0 for midnight) and minute 30 * (i % 2). */
  lemma GridLabelFields(base: CalendarDate, i: nat)
    requires i < TimeSlots.SlotCount
    ensures ParseTimeLabelToDate(base, TimeSlots.SlotAt(i)) ==
      LocalDate(base.year, base.month, base.day, if i == TimeSlots.SlotCount - 1 then 0 else 8 + i / 2, 30 * (i % 2), 0, 0)
  {
    if i == TimeSlots.SlotCount - 1 {
      MidnightDate(base);
    } else {
      SlotDate(base, i);
    }
  }

  lemma MidnightDate(base: CalendarDate)
    ensures ParseTimeLabelToDate(base, TimeSlots.Midnight) == LocalDate(base.year, base.month, base.day, 0, 0, 0, 0)
  {
    var n, mm, per := "12", "00", "am";
    assert AllDigits(n) && AllDigits(mm) && NoSpace(per);
    assert n + [':'] + mm + [' '] + per == TimeSlots.Midnight;
    ParseWellFormedLabel(base, n, mm, per);
    assert DigitsValue(n) == 12 by { assert n[..1] == "1"; }
    assert DigitsValue(mm) == 0 by { assert mm[..1] == "0"; }
    assert ToLower(per) == per;
  }

  lemma SlotDate(base: CalendarDate, i: nat)
    requires i < TimeSlots.SlotCount - 1
    ensures ParseTimeLabelToDate(base, TimeSlots.SlotAt(i)) ==
      LocalDate(base.year, base.month, base.day, 8 + i / 2, 30 * (i % 2), 0, 0)
  {
    var h := 8 + i / 2;
    var n := NatToString(TimeSlots.Hour12(h));
    var mm := if i % 2 == 1 then "30" else "00";
    var per := TimeSlots.Period(h);
    TimeSlots.SlotShape(i);
    TimeSlots.MinuteDigits(i % 2 == 1);
    assert NoSpace(per);
    ParseWellFormedLabel(base, n, mm, per);
    SlotFields(i);
  }

  /** The hour and minute fields of grid label `i`, as `ParseWellFormedLabel` reads them. */
  lemma SlotFields(i: nat)
    requires i < TimeSlots.SlotCount - 1
    ensures var h := 8 + i / 2;
      var per := TimeSlots.Period(h);
      && To24(DigitsValue(NatToString(TimeSlots.Hour12(h))), ToLower(per)) == h
      && DigitsValue(if i % 2 == 1 then "30" else "00") == 30 * (i % 2)
  {
    var h := 8 + i / 2;
    DigitsValueOfNat(TimeSlots.Hour12(h));
    assert ToLower(TimeSlots.Period(h)) == TimeSlots.Period(h);
    To24OfHour12(h);
    TimeSlots.MinuteDigits(i % 2 == 1);
  }

  /** The clock reading of grid entry `i` against its `labelToMinutes` value. */
  lemma GridClock(i: nat)
    requires i < TimeSlots.SlotCount
    ensures var hours := if i == TimeSlots.SlotCount - 1 then 0 else 8 + i / 2;
      && 0 <= hours <= 23
      && hours * 60 + 30 * (i % 2) == TimeSlots.GridMinutes(i) % (24 * 60)
  {
    assert i == 2 * (i / 2) + i % 2;
  }
}
