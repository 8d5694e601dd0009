/** The scheduling logic of the mobile create-game form: the fixed half-hour
    label grid, the label-to-minutes parse, the nearest-slot search that seeds
    the start and end times, and the calendar's month grid. */
module TimeSlots {
  import opened JsText

  /** `((h + 11) % 12) + 1`: the 12-hour-clock hour for hour-of-day `h`. */
  function Hour12(h: nat): (r: nat)
    ensures 1 <= r <= 12
    ensures r % 12 == h % 12
  {
    ((h + 11) % 12) + 1
  }

  function Period(h: nat): string {
    if h >= 12 then "pm" else "am"
  }

  /** The label the generator pushes for hour `h`, on the hour or at half past. */
  function SlotLabel(h: nat, half: bool): string {
    NatToString(Hour12(h)) + (if half then ":30 " else ":00 ") + Period(h)
  }

  const Midnight: string := "12:00 am"
  const SlotCount: nat := 33

  /** Entry `i` of the grid: two per hour for hours 8..23, then midnight. */
  function SlotAt(i: nat): string
    requires i < SlotCount
  {
    if i == SlotCount - 1 then Midnight else SlotLabel(8 + i / 2, i % 2 == 1)
  }

  function Times(): seq<string> {
    seq(SlotCount, i requires 0 <= i < SlotCount => SlotAt(i))
  }

  /** The `times` memo: a loop over the hours 8..23 pushing two labels each,
      then the terminal midnight label. */
  method GenerateTimes() returns (labels: seq<string>)
    ensures labels == Times()
  {
    labels := [];
    for h := 8 to 24
      invariant |labels| == 2 * (h - 8)
      invariant labels == Times()[..|labels|]
    {
      var hour12 := ((h + 11) % 12) + 1;
      var period := if h >= 12 then "pm" else "am";
      var onHour, halfPast := NatToString(hour12) + ":00 " + period, NatToString(hour12) + ":30 " + period;
      SlotPair(h);
      PrefixGrows(Times(), labels, onHour, halfPast);
      labels := labels + [onHour];
      labels := labels + [halfPast];
    }
    PrefixGrows(Times(), labels, Midnight, Midnight);
    labels := labels + [Midnight];
  }

  /** Appending the next entries of `grid` to a prefix of it gives a longer prefix. */
  lemma PrefixGrows<T>(grid: seq<T>, labels: seq<T>, first: T, second: T)
    requires |labels| < |grid| && labels == grid[..|labels|] && first == grid[|labels|]
    ensures labels + [first] == grid[..|labels| + 1]
    ensures |labels| + 1 < |grid| && second == grid[|labels| + 1] ==>
      labels + [first] + [second] == grid[..|labels| + 2]
  {
  }

  lemma SlotPair(h: nat)
    requires 8 <= h < 24
    ensures SlotAt(2 * (h - 8)) == SlotLabel(h, false)
    ensures SlotAt(2 * (h - 8) + 1) == SlotLabel(h, true)
  {
  }

  /** The grid has 33 entries, starts at 8:00 am and ends at midnight. */
  lemma TimesEnds()
    ensures |Times()| == 33
    ensures Times()[0] == "8:00 am"
    ensures Times()[1] == "8:30 am"
    ensures Times()[31] == "11:30 pm"
    ensures Times()[32] == "12:00 am"
  {
    assert NatToString(8) == "8";
    assert NatToString(11) == "11";
  }

  /** Every generated hour has a 12-hour form in 1..12, and its period is
      "pm" exactly from noon on. */
  lemma GridHours(i: nat)
    requires i < SlotCount - 1
    ensures var h := 8 + i / 2;
      && 8 <= h <= 23
      && 1 <= Hour12(h) <= 12
      && (Period(h) == "pm" <==> h >= 12)
      && Times()[i] == SlotLabel(h, i % 2 == 1)
  {
  }

  /** What evaluating `labelToMinutes(label)` gives: a number, NaN, or a
      thrown TypeError (a label without a space has no meridiem to lower-case). */
  datatype Minutes = At(value: int) | NaN | Throws

  /** JavaScript's `%`, which truncates toward zero. */
  function JsRem(a: int, b: int): (r: int)
    requires b > 0
    ensures -b < r < b
    ensures (a - r) % b == 0
    ensures a >= 0 ==> r == a % b
    ensures a < 0 ==> r <= 0
  {
    var q := if a >= 0 then a / b else -((-a) / b);
    var r := if a >= 0 then a % b else -((-a) % b);
    assert a - r == b * q;
    MultipleMod(b, q);
    r
  }

  lemma MultipleMod(b: int, q: int)
    requires b > 0
    ensures (b * q) % b == 0
  {
    var m := b * q;
    var d := q - m / b;
    assert m % b == b * d;
  }

  /** `labelToMinutes`: "h:mm am|pm" to minutes since midnight, except that
      the literal "12:00 am" (in any case) is 1440 so that it sorts last. */
  function LabelToMinutes(text: string): Minutes {
    var parts := Split(text, ' ');
    if |parts| < 2 then Throws
    else if ToLower(text) == Midnight then At(24 * 60)
    else ClockMinutes(parts[0], ToLower(parts[1]) == "pm")
  }

  /** `labelToMinutes` throws exactly on a label without a space, and the
      midnight label, in any case, is 1440. */
  lemma LabelMinutesCases(text: string)
    ensures LabelToMinutes(text).Throws? <==> ' ' !in text
    ensures ToLower(text) == Midnight ==> LabelToMinutes(text) == At(24 * 60)
  {
    SplitPieces(text, ' ');
    if ToLower(text) == Midnight {
      assert LowerChar(text[5]) == Midnight[5];
    }
  }

  /** The "h:mm" part: `parseInt(h) % 12`, plus 12 in the afternoon, times 60,
      plus `parseInt(mm)`; NaN when either number is missing. */
  function ClockMinutes(time: string, pm: bool): Minutes {
    var hm := Split(time, ':');
    var h := ParseInt(hm[0]);
    var m := if |hm| < 2 then None else ParseInt(hm[1]);
    if h.None? || m.None? then NaN
    else At((JsRem(h.value, 12) + (if pm then 12 else 0)) * 60 + m.value)
  }

  /** The minute value the grid stands for: 480 + 30i, and 1440 for midnight. */
  function GridMinutes(i: nat): nat {
    if i == SlotCount - 1 then 24 * 60 else 480 + 30 * i
  }

  predicate NoUpper(s: string) {
    forall i :: 0 <= i < |s| ==> !('A' <= s[i] <= 'Z')
  }

  lemma LowerOfNoUpper(s: string)
    requires NoUpper(s)
    ensures ToLower(s) == s
  {
  }

  lemma DigitsHaveNo(s: string, c: char)
    requires AllDigits(s) && !IsDigit(c)
    ensures c !in s
  {
  }

  /** Splitting a well-formed label "n:mm per" on the space and on the colon. */
  lemma SplitLabelParts(n: string, mm: string, per: string)
    requires AllDigits(n) && AllDigits(mm)
    requires ' ' !in per
    ensures Split(n + [':'] + mm + [' '] + per, ' ') == [n + [':'] + mm, per]
    ensures Split(n + [':'] + mm, ':') == [n, mm]
  {
    DigitsHaveNo(n, ' ');
    DigitsHaveNo(mm, ' ');
    DigitsHaveNo(n, ':');
    DigitsHaveNo(mm, ':');
    assert ' ' !in n + [':'] + mm;
    SplitFirst(n + [':'] + mm, ' ', per);
    SplitNoSeparator(per, ' ');
    SplitFirst(n, ':', mm);
    SplitNoSeparator(mm, ':');
  }

  lemma ParseDigits(s: string)
    requires s != [] && AllDigits(s)
    ensures ParseInt(s) == Some(DigitsValue(s))
  {
    assert s + [] == s;
    ParseIntStopsAtNonDigit(s, []);
  }

  lemma MidnightParts()
    ensures Split(Midnight, ' ') == ["12:00", "am"]
    ensures ToLower(Midnight) == Midnight
  {
    MidnightSplit();
    MidnightIsLower();
  }

  lemma MidnightSplit()
    ensures Split(Midnight, ' ') == ["12:00", "am"]
  {
    var n, mm, per := "12", "00", "am";
    assert AllDigits(n) && AllDigits(mm);
    assert ' ' !in per;
    SplitLabelParts(n, mm, per);
    assert n + [':'] + mm + [' '] + per == Midnight;
    assert n + [':'] + mm == "12:00";
  }

  lemma MidnightIsLower()
    ensures ToLower(Midnight) == Midnight
  {
    assert NoUpper(Midnight);
    LowerOfNoUpper(Midnight);
  }

  /** Label `i` (not midnight) is "n:mm per" with `n` the 12-hour digits. */
  lemma SlotShape(i: nat)
    requires i < SlotCount - 1
    ensures var h := 8 + i / 2;
      SlotAt(i) == NatToString(Hour12(h)) + [':'] + (if i % 2 == 1 then "30" else "00") + [' '] + Period(h)
  {
  }

  lemma SlotIsLowerCase(i: nat)
    requires i < SlotCount - 1
    ensures ToLower(SlotAt(i)) == SlotAt(i)
  {
    var n := NatToString(Hour12(8 + i / 2));
    var t := SlotAt(i);
    SlotShape(i);
    assert NoUpper(t) by {
      forall k | 0 <= k < |t| ensures !('A' <= t[k] <= 'Z') {
        if k < |n| { assert IsDigit(n[k]); }
      }
    }
    LowerOfNoUpper(t);
  }

  /** Two labels "n:mm per" that are equal have equal hour digits and period. */
  lemma SameLabelSameParts(n1: string, mm1: string, per1: string, n2: string, mm2: string, per2: string)
    requires AllDigits(n1) && AllDigits(mm1) && ' ' !in per1
    requires AllDigits(n2) && AllDigits(mm2) && ' ' !in per2
    requires n1 + [':'] + mm1 + [' '] + per1 == n2 + [':'] + mm2 + [' '] + per2
    ensures n1 == n2 && per1 == per2
  {
    SplitLabelParts(n1, mm1, per1);
    SplitLabelParts(n2, mm2, per2);
  }

  /** Only the terminal entry is the literal midnight label. */
  lemma SlotIsNotMidnight(i: nat)
    requires i < SlotCount - 1
    ensures SlotAt(i) != Midnight
  {
    var h := 8 + i / 2;
    var n := NatToString(Hour12(h));
    var mm := if i % 2 == 1 then "30" else "00";
    SlotShape(i);
    var twelve := NatToString(12);
    assert twelve == "12";
    assert Midnight == twelve + [':'] + "00" + [' '] + "am";
    if SlotAt(i) == Midnight {
      SameLabelSameParts(n, mm, Period(h), twelve, "00", "am");
      NatToStringInjective(Hour12(h), 12);
      assert false;
    }
  }

  lemma ClockOfDigits(n: string, mm: string, pm: bool)
    requires n != [] && AllDigits(n) && mm != [] && AllDigits(mm)
    ensures ClockMinutes(n + [':'] + mm, pm) ==
      At((JsRem(DigitsValue(n), 12) + (if pm then 12 else 0)) * 60 + DigitsValue(mm))
  {
    DigitsHaveNo(n, ':');
    DigitsHaveNo(mm, ':');
    SplitFirst(n, ':', mm);
    SplitNoSeparator(mm, ':');
    ParseDigits(n);
    ParseDigits(mm);
  }

  /** `labelToMinutes` on a well-formed label "n:mm per" other than midnight. */
  lemma LabelMinutesOfParts(n: string, mm: string, per: string)
    requires n != [] && AllDigits(n) && mm != [] && AllDigits(mm) && ' ' !in per
    requires ToLower(n + [':'] + mm + [' '] + per) != Midnight
    ensures LabelToMinutes(n + [':'] + mm + [' '] + per) ==
      At((JsRem(DigitsValue(n), 12) + (if ToLower(per) == "pm" then 12 else 0)) * 60 + DigitsValue(mm))
  {
    var time := n + [':'] + mm;
    var text := time + [' '] + per;
    var pm := ToLower(per) == "pm";
    assert Split(text, ' ') == [time, per] by {
      SplitLabelParts(n, mm, per);
    }
    assert LabelToMinutes(text) == ClockMinutes(time, pm) by {
      LabelOfTwoParts(text, time, per);
    }
    ClockOfDigits(n, mm, pm);
  }

  /** A label that splits into a time and a meridiem, and is not midnight, is read as a clock time. */
  lemma LabelOfTwoParts(text: string, time: string, meridiem: string)
    requires Split(text, ' ') == [time, meridiem] && ToLower(text) != Midnight
    ensures LabelToMinutes(text) == ClockMinutes(time, ToLower(meridiem) == "pm")
  {
  }

  lemma MidnightMinutes()
    ensures LabelToMinutes(Midnight) == At(24 * 60)
  {
    MidnightParts();
  }

  /** The generated label at index `i` parses to the grid's minute value. */
  lemma SlotMinutes(i: nat)
    requires i < SlotCount
    ensures LabelToMinutes(SlotAt(i)) == At(GridMinutes(i))
  {
    if i == SlotCount - 1 {
      MidnightMinutes();
      assert SlotAt(i) == Midnight;
    } else {
      DaySlotMinutes(i);
    }
  }

  /** A label before midnight parses to 480 + 30i. */
  lemma DaySlotMinutes(i: nat)
    requires i < SlotCount - 1
    ensures LabelToMinutes(SlotAt(i)) == At(480 + 30 * i)
  {
    DaySlotParts(i);
    DaySlotArithmetic(i);
  }

  /** Label `i` before midnight read through `LabelMinutesOfParts`. */
  lemma DaySlotParts(i: nat)
    requires i < SlotCount - 1
    ensures var h := 8 + i / 2;
      LabelToMinutes(SlotAt(i)) ==
        At((JsRem(DigitsValue(NatToString(Hour12(h))), 12) + (if Period(h) == "pm" then 12 else 0)) * 60
           + DigitsValue(if i % 2 == 1 then "30" else "00"))
  {
    var h := 8 + i / 2;
    var n := NatToString(Hour12(h));
    var mm := if i % 2 == 1 then "30" else "00";
    var per := Period(h);
    SlotShape(i);
    SlotIsLowerNotMidnight(i);
    MinuteDigits(i % 2 == 1);
    PeriodIsLower(h);
    LabelMinutesOfParts(n, mm, per);
  }

  lemma SlotIsLowerNotMidnight(i: nat)
    requires i < SlotCount - 1
    ensures ToLower(SlotAt(i)) != Midnight
  {
    SlotIsLowerCase(i);
    SlotIsNotMidnight(i);
  }

  lemma PeriodIsLower(h: nat)
    ensures ToLower(Period(h)) == Period(h) && ' ' !in Period(h)
  {
    assert NoUpper(Period(h));
    LowerOfNoUpper(Period(h));
  }

  lemma DaySlotArithmetic(i: nat)
    requires i < SlotCount - 1
    ensures var h := 8 + i / 2;
      (JsRem(DigitsValue(NatToString(Hour12(h))), 12) + (if Period(h) == "pm" then 12 else 0)) * 60
        + DigitsValue(if i % 2 == 1 then "30" else "00") == 480 + 30 * i
  {
    var h := 8 + i / 2;
    DigitsValueOfNat(Hour12(h));
    MinuteDigits(i % 2 == 1);
    SlotArithmetic(i);
  }

  lemma MinuteDigits(half: bool)
    ensures var mm := if half then "30" else "00";
      AllDigits(mm) && DigitsValue(mm) == if half then 30 else 0
  {
    assert DigitsValue("3") == 3;
    assert DigitsValue("0") == 0;
    assert "30"[..1] == "3" && "00"[..1] == "0";
  }

  lemma SlotArithmetic(i: nat)
    requires i < SlotCount - 1
    ensures var h := 8 + i / 2;
      (h % 12 + (if h >= 12 then 12 else 0)) * 60 + 30 * (i % 2) == 480 + 30 * i
  {
    assert i == 2 * (i / 2) + i % 2;
  }

  /** `labelToMinutes` along the generated grid: strictly increasing, midnight
      at 1440 and every other label within 480..1410. */
  lemma GridMinutesOrdered()
    ensures forall i :: 0 <= i < SlotCount ==> LabelToMinutes(Times()[i]) == At(GridMinutes(i))
    ensures LabelToMinutes(Midnight) == At(1440)
    ensures forall i :: 0 <= i < SlotCount - 1 ==> 480 <= LabelToMinutes(Times()[i]).value <= 1410
    ensures forall i, j :: 0 <= i < j < SlotCount ==>
      LabelToMinutes(Times()[i]).value < LabelToMinutes(Times()[j]).value
  {
    forall i | 0 <= i < SlotCount ensures LabelToMinutes(Times()[i]) == At(GridMinutes(i)) {
      SlotMinutes(i);
    }
    SlotMinutes(SlotCount - 1);
  }

  /** No generated label makes `labelToMinutes` throw. */
  lemma TimesNeverThrow()
    ensures forall i :: 0 <= i < |Times()| ==> !LabelToMinutes(Times()[i]).Throws?
  {
    GridMinutesOrdered();
  }

  /** The distance `getNearestSlotNow` compares: the parsed minutes with 1440
      read as 0, against the current minute of the day; `None` stands for NaN. */
  function SlotDistance(text: string, nowMinutes: int): Option<nat> {
    match LabelToMinutes(text)
    case At(m) =>
      var candidate := if m == 24 * 60 then 0 else m;
      Some(if candidate >= nowMinutes then candidate - nowMinutes else nowMinutes - candidate)
    case _ => None
  }

  /** `k` is where a strict-`<` scan over the distances `ds` settles: no
      distance is smaller, every earlier one is strictly larger; when every
      distance is NaN the scan keeps index 0. */
  predicate NearestIn(ds: seq<Option<nat>>, k: int) {
    && 0 <= k < |ds|
    && if ds[k].Some? then
         && (forall j :: 0 <= j < |ds| && ds[j].Some? ==> ds[k].value <= ds[j].value)
         && (forall j :: 0 <= j < k && ds[j].Some? ==> ds[k].value < ds[j].value)
       else
         k == 0 && forall j :: 0 <= j < |ds| ==> ds[j].None?
  }

  /** The label distances, in order. */
  function Distances(labels: seq<string>, nowMinutes: int): (ds: seq<Option<nat>>)
    ensures |ds| == |labels|
  {
    seq(|labels|, j requires 0 <= j < |labels| => SlotDistance(labels[j], nowMinutes))
  }

  /** `k` is the index `getNearestSlotNow` settles on for `labels`. */
  predicate IsNearest(labels: seq<string>, nowMinutes: int, k: int) {
    NearestIn(Distances(labels, nowMinutes), k)
  }

  /** What `getNearestSlotNow` returns: a label, `undefined` for an empty
      list, or the TypeError a label without a meridiem raises. */
  datatype NearestSlot = Nearest(slot: string) | Undefined | Thrown

  /** `getNearestSlotNow`, with the clock's minute of the day as a parameter. */
  method GetNearestSlotNow(labels: seq<string>, nowMinutes: int) returns (r: NearestSlot)
    ensures r.Thrown? <==> exists i :: 0 <= i < |labels| && LabelToMinutes(labels[i]).Throws?
    ensures r.Undefined? <==> labels == []
    ensures r.Nearest? ==> exists k :: IsNearest(labels, nowMinutes, k) && r.slot == labels[k]
  {
    var best := if labels == [] then Undefined else Nearest(labels[0]);
    var bestDiff: Option<nat> := None;  // None is Infinity
    ghost var bestIdx := 0;
    ghost var ds: seq<Option<nat>> := [];
    for i := 0 to |labels|
      invariant forall j :: 0 <= j < i ==> !LabelToMinutes(labels[j]).Throws?
      invariant |ds| == i
      invariant forall j {:trigger SlotDistance(labels[j], nowMinutes)} :: 0 <= j < i ==> ds[j] == SlotDistance(labels[j], nowMinutes)
      invariant labels == [] ==> best == Undefined
      invariant bestDiff.None? ==>
        && (labels != [] ==> best == Nearest(labels[0]))
        && bestIdx == 0
        && forall j :: 0 <= j < i ==> ds[j].None?
      invariant bestDiff.Some? ==>
        && 0 <= bestIdx < i
        && best == Nearest(labels[bestIdx])
        && ds[bestIdx] == bestDiff
        && (forall j :: 0 <= j < i && ds[j].Some? ==> bestDiff.value <= ds[j].value)
        && (forall j :: 0 <= j < bestIdx && ds[j].Some? ==> bestDiff.value < ds[j].value)
    {
      var mins := LabelToMinutes(labels[i]);
      if mins.Throws? {
        return Thrown;
      }
      var diff := SlotDistance(labels[i], nowMinutes);
      if diff.Some? && (bestDiff.None? || diff.value < bestDiff.value) {
        best := Nearest(labels[i]);
        bestDiff := diff;
        bestIdx := i;
      }
      ds := ds + [diff];
    }
    if labels != [] {
      DistancesAre(labels, nowMinutes, ds);
      assert NearestIn(ds, bestIdx);
    }
    r := best;
  }

  lemma DistancesAre(labels: seq<string>, nowMinutes: int, ds: seq<Option<nat>>)
    requires |ds| == |labels|
    requires forall j {:trigger SlotDistance(labels[j], nowMinutes)} :: 0 <= j < |labels| ==> ds[j] == SlotDistance(labels[j], nowMinutes)
    ensures Distances(labels, nowMinutes) == ds
  {
  }

  /** The scan's answer is unique. */
  lemma NearestIsUnique(labels: seq<string>, nowMinutes: int, k1: int, k2: int)
    requires IsNearest(labels, nowMinutes, k1) && IsNearest(labels, nowMinutes, k2)
    ensures k1 == k2
  {
  }

  /** Distance of grid entry `i` from `nowMinutes`, midnight counting as 0. */
  function GridDistance(i: nat, nowMinutes: int): nat {
    var c := if i == SlotCount - 1 then 0 else GridMinutes(i);
    if c >= nowMinutes then c - nowMinutes else nowMinutes - c
  }

  /** Along the generated grid every distance is defined and is `GridDistance`. */
  lemma GridSlotDistances(nowMinutes: int)
    ensures forall i :: 0 <= i < SlotCount ==> Distances(Times(), nowMinutes)[i] == Some(GridDistance(i, nowMinutes))
  {
    forall i | 0 <= i < SlotCount ensures Distances(Times(), nowMinutes)[i] == Some(GridDistance(i, nowMinutes)) {
      SlotMinutes(i);
    }
  }

  /** On the grid the scan picks the earliest label of least distance. */
  lemma NearestOnGrid(nowMinutes: int, k: int)
    requires IsNearest(Times(), nowMinutes, k)
    ensures 0 <= k < SlotCount
    ensures forall j :: 0 <= j < SlotCount ==> GridDistance(k, nowMinutes) <= GridDistance(j, nowMinutes)
    ensures forall j :: 0 <= j < k ==> GridDistance(k, nowMinutes) < GridDistance(j, nowMinutes)
  {
    GridSlotDistances(nowMinutes);
    var ds := Distances(Times(), nowMinutes);
    assert NearestIn(ds, k);
    assert ds[k].Some?;
  }

  /** A tie goes to the earlier label: at 8:15 the scan keeps 8:00 am, not 8:30 am. */
  lemma NearestTieKeepsEarlier(k: int)
    requires IsNearest(Times(), 8 * 60 + 15, k)
    ensures Times()[k] == "8:00 am"
  {
    NearestOnGrid(8 * 60 + 15, k);
    assert GridDistance(0, 8 * 60 + 15) == 15;
    TimesEnds();
  }

  /** Midnight competes as the start of the day: before 4:00 am it is nearest. */
  lemma NearestBeforeDawnIsMidnight(nowMinutes: int, k: int)
    requires 0 <= nowMinutes < 4 * 60
    requires IsNearest(Times(), nowMinutes, k)
    ensures Times()[k] == Midnight
  {
    NearestOnGrid(nowMinutes, k);
    assert GridDistance(SlotCount - 1, nowMinutes) == nowMinutes;
    assert forall j :: 0 <= j < SlotCount - 1 ==> GridDistance(j, nowMinutes) >= 480 - nowMinutes;
  }

  /** A cell of the month grid: blank (`e-i`) or a day (`d-d`). */
  datatype Cell = Cell(key: string, day: Option<nat>)

  lemma NatToStringInjective(a: nat, b: nat)
    requires NatToString(a) == NatToString(b)
    ensures a == b
  {
    ParseIntOfNat(a);
    ParseIntOfNat(b);
  }

  lemma PrefixedKeysDiffer(p: string, a: nat, b: nat)
    requires a != b
    ensures p + NatToString(a) != p + NatToString(b)
  {
    if p + NatToString(a) == p + NatToString(b) {
      assert (p + NatToString(a))[|p|..] == NatToString(a);
      assert (p + NatToString(b))[|p|..] == NatToString(b);
      NatToStringInjective(a, b);
    }
  }

  /** Cell `i` of a month grid that starts `firstDayIdx` columns in. */
  function CellAt(firstDayIdx: nat, i: nat): Cell {
    if i < firstDayIdx then Cell("e-" + NatToString(i), None)
    else Cell("d-" + NatToString(i - firstDayIdx + 1), Some(i - firstDayIdx + 1))
  }

  /** The calendar's day cells: `firstDayIdx` blanks, then the days
      1..daysInMonth in order. */
  method CalendarCells(firstDayIdx: nat, daysInMonth: nat) returns (cells: seq<Cell>)
    ensures |cells| == firstDayIdx + daysInMonth
    ensures forall i :: 0 <= i < |cells| ==> cells[i] == CellAt(firstDayIdx, i)
  {
    cells := [];
    for i := 0 to firstDayIdx
      invariant |cells| == i
      invariant forall j :: 0 <= j < i ==> cells[j] == CellAt(firstDayIdx, j)
    {
      cells := cells + [Cell("e-" + NatToString(i), None)];
    }
    for d := 1 to daysInMonth + 1
      invariant |cells| == firstDayIdx + d - 1
      invariant forall j :: 0 <= j < |cells| ==> cells[j] == CellAt(firstDayIdx, j)
    {
      cells := cells + [Cell("d-" + NatToString(d), Some(d))];
    }
  }

  /** Blank cells carry no day, day cells count 1, 2, ... from the first column. */
  lemma CellDays(firstDayIdx: nat, i: nat)
    ensures CellAt(firstDayIdx, i).day.None? <==> i < firstDayIdx
    ensures i >= firstDayIdx ==> CellAt(firstDayIdx, i).day == Some(i - firstDayIdx + 1)
  {
  }

  /** Every key of the grid is distinct, as React requires of sibling keys. */
  lemma CellKeysDistinct(firstDayIdx: nat, i: nat, j: nat)
    requires i != j
    ensures CellAt(firstDayIdx, i).key != CellAt(firstDayIdx, j).key
  {
    if i < firstDayIdx && j < firstDayIdx {
      PrefixedKeysDiffer("e-", i, j);
    } else if firstDayIdx <= i && firstDayIdx <= j {
      PrefixedKeysDiffer("d-", i - firstDayIdx + 1, j - firstDayIdx + 1);
    } else {
      assert CellAt(firstDayIdx, i).key[0] != CellAt(firstDayIdx, j).key[0];
    }
  }
}
