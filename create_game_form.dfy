/** The mobile create-game form: which group, location, day and start/end
    slot are chosen, the five drop-down menus of which at most one is open,
    the month the calendar shows, and the submit button's guard, title rule,
    payload and reset. */
module CreateGameForm {
  import opened JsText
  import TimeSlots
  import opened Datetime

  datatype Group = Group(id: string, name: string)

  const GroupsSeed: seq<Group> := [
    Group("1", "Certified Uncs"),
    Group("2", "Weekend Warriors"),
    Group("3", "Morning Crew")
  ]

  const LocationsSeed: seq<string> := ["FitRec", "Central Park Courts", "Oak Street Recreation Center"]

  /** `groups.find((g) => g.id === id)`: the first group with that id. */
  function FindGroup(groups: seq<Group>, id: Option<string>): (r: Option<Group>)
    ensures r.Some? ==> id == Some(r.value.id) && r.value in groups
    ensures r.None? ==> forall k :: 0 <= k < |groups| ==> id != Some(groups[k].id)
    decreases |groups|
  {
    if groups == [] then None
    else if id == Some(groups[0].id) then Some(groups[0])
    else FindGroup(groups[1..], id)
  }

  /** The title of the created game: "<group name> Pickup" when the selected
      id names a seed group, "Pickup at <location>" when it names none. */
  function Title(groupId: Option<string>, location: string): (r: string)
    ensures forall k :: 0 <= k < |GroupsSeed| && groupId == Some(GroupsSeed[k].id) ==>
      r == GroupsSeed[k].name + " Pickup"
    ensures (forall k :: 0 <= k < |GroupsSeed| ==> groupId != Some(GroupsSeed[k].id)) ==>
      r == "Pickup at " + location
  {
    var group := FindGroup(GroupsSeed, groupId);
    if group.Some? && group.value.name != "" then group.value.name + " Pickup"
    else "Pickup at " + location
  }

  /** `location.trim().length > 0`: the location holds a non-blank character. */
  function CanSubmit(location: string): (r: bool)
    ensures r <==> exists i :: 0 <= i < |location| && !IsSpace(location[i])
  {
    TrimEmpty(location);
    |Trim(location)| > 0
  }

  /** `description.trim() || undefined` */
  function DescriptionField(description: string): (r: Option<string>)
    ensures r.None? <==> forall i :: 0 <= i < |description| ==> IsSpace(description[i])
    ensures r.Some? ==> r.value == Trim(description) && r.value != [] && !IsSpace(r.value[0]) && !IsSpace(r.value[|r.value| - 1])
  {
    TrimEmpty(description);
    TrimShape(description);
    if Trim(description) == [] then None else Some(Trim(description))
  }

  /** What the submit button hands to `onComplete`; `date` is the selected day
      whose local midnight becomes `dateISO`. */
  datatype Payload = Payload(
    title: string,
    location: string,
    startTime: string,
    endTime: string,
    date: CalendarDate,
    groupId: Option<string>,
    description: Option<string>)

  datatype Menu = GroupMenu | LocationMenu | CalendarMenu | StartMenu | EndMenu

  /** The five `show*` flags. */
  datatype MenuFlags = MenuFlags(group: bool, location: bool, calendar: bool, start: bool, end: bool)

  function IsOpen(f: MenuFlags, m: Menu): bool {
    match m
    case GroupMenu => f.group
    case LocationMenu => f.location
    case CalendarMenu => f.calendar
    case StartMenu => f.start
    case EndMenu => f.end
  }

  /** How many of the five menus are open. */
  function OpenCount(f: MenuFlags): nat {
    (if f.group then 1 else 0) + (if f.location then 1 else 0) + (if f.calendar then 1 else 0)
    + (if f.start then 1 else 0) + (if f.end then 1 else 0)
  }

  predicate AtMostOneOpen(f: MenuFlags) {
    OpenCount(f) <= 1
  }

  /** With at most one menu open, two open menus are the same menu. */
  lemma AtMostOneOpenMeans(f: MenuFlags, m1: Menu, m2: Menu)
    requires AtMostOneOpen(f) && IsOpen(f, m1) && IsOpen(f, m2)
    ensures m1 == m2
  {
  }

  const AllClosed := MenuFlags(false, false, false, false, false)

  /** `toggleMenu(menu)`: the chosen menu flips and the four others close. */
  function Toggled(f: MenuFlags, menu: Menu): (r: MenuFlags)
    ensures IsOpen(r, menu) == !IsOpen(f, menu)
    ensures forall m :: m != menu ==> !IsOpen(r, m)
  {
    var next := !IsOpen(f, menu);
    MenuFlags(
      if menu == GroupMenu then next else false,
      if menu == LocationMenu then next else false,
      if menu == CalendarMenu then next else false,
      if menu == StartMenu then next else false,
      if menu == EndMenu then next else false)
  }

  /** Whatever was open before, after a toggle at most one menu is open. */
  lemma ToggledOpensAtMostOne(f: MenuFlags, menu: Menu)
    ensures AtMostOneOpen(Toggled(f, menu))
  {
  }

  /** Toggling the same menu twice leaves it as it was and every other menu closed. */
  lemma ToggledTwice(f: MenuFlags, menu: Menu)
    ensures IsOpen(Toggled(Toggled(f, menu), menu), menu) == IsOpen(f, menu)
    ensures forall m :: m != menu ==> !IsOpen(Toggled(Toggled(f, menu), menu), m)
  {
  }

  /** The calendar's month as a count of months, so that stepping is +1 / -1. */
  function MonthIndex(year: int, month: int): int {
    year * 12 + month
  }

  /** `new Date(y, m + delta, 1)` for delta = -1 or +1: the month rolls over
      into the neighbouring year. */
  function ShiftMonth(year: int, month: int, delta: int): (r: (int, int))
    requires 0 <= month < 12 && (delta == 1 || delta == -1)
    ensures 0 <= r.1 < 12
    ensures MonthIndex(r.0, r.1) == MonthIndex(year, month) + delta
  {
    if month + delta < 0 then (year - 1, 11)
    else if month + delta > 11 then (year + 1, 0)
    else (year, month + delta)
  }

  /** Going back a month and forward again returns to the same month. */
  lemma ShiftMonthBackAndForth(year: int, month: int)
    requires 0 <= month < 12
    ensures var p := ShiftMonth(year, month, -1); ShiftMonth(p.0, p.1, 1) == (year, month)
  {
    var p := ShiftMonth(year, month, -1);
    var q := ShiftMonth(p.0, p.1, 1);
    MonthIndexInjective(q.0, q.1, year, month);
  }

  lemma MonthIndexInjective(y1: int, m1: int, y2: int, m2: int)
    requires 0 <= m1 < 12 && 0 <= m2 < 12
    requires MonthIndex(y1, m1) == MonthIndex(y2, m2)
    ensures y1 == y2 && m1 == m2
  {
  }

  class CreateGameForm {
    var selectedGroupId: Option<string>
    var showGroupMenu: bool
    var location: string
    var showLocationMenu: bool
    var showCalendar: bool
    var calendarYear: int
    var calendarMonth: int
    var selectedDate: CalendarDate
    var startTime: string
    var endTime: string
    var showStartMenu: bool
    var showEndMenu: bool
    var description: string

    function Flags(): MenuFlags
      reads this
    {
      MenuFlags(showGroupMenu, showLocationMenu, showCalendar, showStartMenu, showEndMenu)
    }

    /** At most one menu is open and the calendar month is 0..11. */
    predicate Valid()
      reads this
    {
      AtMostOneOpen(Flags()) && 0 <= calendarMonth < 12
    }

    /** The initial state for `today` (month counted from 0). */
    constructor(today: CalendarDate)
      requires 0 <= today.month < 12
      ensures Valid()
      ensures selectedGroupId == Some(GroupsSeed[0].id) && location == LocationsSeed[0]
      ensures Flags() == AllClosed
      ensures calendarYear == today.year && calendarMonth == today.month && selectedDate == today
      ensures startTime == TimeSlots.Times()[0] && endTime == TimeSlots.Times()[0]
      ensures description == ""
    {
      selectedGroupId := Some(GroupsSeed[0].id);
      showGroupMenu := false;
      location := LocationsSeed[0];
      showLocationMenu := false;
      showCalendar := false;
      calendarYear := today.year;
      calendarMonth := today.month;
      selectedDate := today;
      startTime := "8:00 am";
      endTime := "8:00 am";
      showStartMenu := false;
      showEndMenu := false;
      description := "";
      TimeSlots.TimesEnds();
    }

    /** The effect that runs when the form opens: start and end both move to
        the grid slot nearest to the clock. */
    method Open(nowMinutes: int)
      requires Valid()
      modifies this
      ensures Valid()
      ensures startTime == endTime
      ensures exists k :: TimeSlots.IsNearest(TimeSlots.Times(), nowMinutes, k) && startTime == TimeSlots.Times()[k]
      ensures Flags() == old(Flags()) && selectedGroupId == old(selectedGroupId) && location == old(location)
      ensures calendarYear == old(calendarYear) && calendarMonth == old(calendarMonth)
      ensures selectedDate == old(selectedDate) && description == old(description)
    {
      var times := TimeSlots.GenerateTimes();
      TimeSlots.TimesNeverThrow();
      var slot := TimeSlots.GetNearestSlotNow(times, nowMinutes);
      assert slot.Nearest?;
      startTime := slot.slot;
      endTime := slot.slot;
    }

    method ToggleMenu(menu: Menu)
      requires Valid()
      modifies this
      ensures Valid()
      ensures Flags() == Toggled(old(Flags()), menu)
      ensures selectedGroupId == old(selectedGroupId) && location == old(location)
      ensures calendarYear == old(calendarYear) && calendarMonth == old(calendarMonth)
      ensures selectedDate == old(selectedDate) && startTime == old(startTime) && endTime == old(endTime)
      ensures description == old(description)
    {
      var flags := Toggled(Flags(), menu);
      ToggledOpensAtMostOne(Flags(), menu);
      showGroupMenu := flags.group;
      showLocationMenu := flags.location;
      showCalendar := flags.calendar;
      showStartMenu := flags.start;
      showEndMenu := flags.end;
    }

    /** Tapping a group in the group menu. */
    method SelectGroup(i: nat)
      requires Valid() && i < |GroupsSeed|
      modifies this
      ensures Valid()
      ensures selectedGroupId == Some(GroupsSeed[i].id)
      ensures Flags() == old(Flags()).(group := false)
      ensures location == old(location) && calendarYear == old(calendarYear) && calendarMonth == old(calendarMonth)
      ensures selectedDate == old(selectedDate) && startTime == old(startTime) && endTime == old(endTime)
      ensures description == old(description)
    {
      selectedGroupId := Some(GroupsSeed[i].id);
      showGroupMenu := false;
    }

    /** Tapping a location in the location menu. */
    method SelectLocation(i: nat)
      requires Valid() && i < |LocationsSeed|
      modifies this
      ensures Valid()
      ensures location == LocationsSeed[i]
      ensures Flags() == old(Flags()).(location := false)
      ensures selectedGroupId == old(selectedGroupId) && calendarYear == old(calendarYear) && calendarMonth == old(calendarMonth)
      ensures selectedDate == old(selectedDate) && startTime == old(startTime) && endTime == old(endTime)
      ensures description == old(description)
    {
      location := LocationsSeed[i];
      showLocationMenu := false;
    }

    /** "+ Add new location" only closes the menu. */
    method AddNewLocation()
      requires Valid()
      modifies this
      ensures Valid()
      ensures Flags() == old(Flags()).(location := false)
      ensures location == old(location) && selectedGroupId == old(selectedGroupId)
      ensures calendarYear == old(calendarYear) && calendarMonth == old(calendarMonth)
      ensures selectedDate == old(selectedDate) && startTime == old(startTime) && endTime == old(endTime)
      ensures description == old(description)
    {
      showLocationMenu := false;
    }

    /** The ◀ button: the calendar shows the previous month. */
    method PreviousMonth()
      requires Valid()
      modifies this
      ensures Valid()
      ensures MonthIndex(calendarYear, calendarMonth) == MonthIndex(old(calendarYear), old(calendarMonth)) - 1
      ensures Flags() == old(Flags()) && selectedGroupId == old(selectedGroupId) && location == old(location)
      ensures selectedDate == old(selectedDate) && startTime == old(startTime) && endTime == old(endTime)
      ensures description == old(description)
    {
      var p := ShiftMonth(calendarYear, calendarMonth, -1);
      calendarYear, calendarMonth := p.0, p.1;
    }

    /** The ▶ button: the calendar shows the next month. */
    method NextMonth()
      requires Valid()
      modifies this
      ensures Valid()
      ensures MonthIndex(calendarYear, calendarMonth) == MonthIndex(old(calendarYear), old(calendarMonth)) + 1
      ensures Flags() == old(Flags()) && selectedGroupId == old(selectedGroupId) && location == old(location)
      ensures selectedDate == old(selectedDate) && startTime == old(startTime) && endTime == old(endTime)
      ensures description == old(description)
    {
      var p := ShiftMonth(calendarYear, calendarMonth, 1);
      calendarYear, calendarMonth := p.0, p.1;
    }

    /** Tapping day `day` of the month on show selects that date and closes the calendar. */
    method SelectDay(day: nat)
      requires Valid()
      modifies this
      ensures Valid()
      ensures selectedDate == CalendarDate(calendarYear, calendarMonth, day)
      ensures Flags() == old(Flags()).(calendar := false)
      ensures calendarYear == old(calendarYear) && calendarMonth == old(calendarMonth)
      ensures selectedGroupId == old(selectedGroupId) && location == old(location)
      ensures startTime == old(startTime) && endTime == old(endTime) && description == old(description)
    {
      selectedDate := CalendarDate(calendarYear, calendarMonth, day);
      showCalendar := false;
    }

    /** Choosing a start time moves the end time along with it. */
    method SelectStart(t: string)
      requires Valid()
      modifies this
      ensures Valid()
      ensures startTime == t && endTime == t
      ensures Flags() == old(Flags()).(start := false)
      ensures selectedGroupId == old(selectedGroupId) && location == old(location)
      ensures calendarYear == old(calendarYear) && calendarMonth == old(calendarMonth)
      ensures selectedDate == old(selectedDate) && description == old(description)
    {
      startTime := t;
      endTime := t;
      showStartMenu := false;
    }

    /** Choosing an end time leaves the start time alone. */
    method SelectEnd(t: string)
      requires Valid()
      modifies this
      ensures Valid()
      ensures endTime == t && startTime == old(startTime)
      ensures Flags() == old(Flags()).(end := false)
      ensures selectedGroupId == old(selectedGroupId) && location == old(location)
      ensures calendarYear == old(calendarYear) && calendarMonth == old(calendarMonth)
      ensures selectedDate == old(selectedDate) && description == old(description)
    {
      endTime := t;
      showEndMenu := false;
    }

    method SetDescription(text: string)
      requires Valid()
      modifies this
      ensures Valid()
      ensures description == text
      ensures Flags() == old(Flags()) && selectedGroupId == old(selectedGroupId) && location == old(location)
      ensures calendarYear == old(calendarYear) && calendarMonth == old(calendarMonth)
      ensures selectedDate == old(selectedDate) && startTime == old(startTime) && endTime == old(endTime)
    {
      description := text;
    }

    /** The Create button. Disabled (nothing happens) unless the location is
        non-blank; otherwise it emits the payload and resets group, location
        and description to their defaults, keeping everything else. */
    method Submit() returns (payload: Option<Payload>)
      requires Valid()
      modifies this
      ensures Valid()
      ensures payload.None? <==> !CanSubmit(old(location))
      ensures payload.None? ==>
        && selectedGroupId == old(selectedGroupId) && location == old(location) && description == old(description)
      ensures payload.Some? ==>
        && payload.value == Payload(
             Title(old(selectedGroupId), old(location)), old(location), old(startTime), old(endTime),
             old(selectedDate), old(selectedGroupId), DescriptionField(old(description)))
        && selectedGroupId == Some(GroupsSeed[0].id) && location == LocationsSeed[0] && description == ""
      ensures Flags() == old(Flags()) && calendarYear == old(calendarYear) && calendarMonth == old(calendarMonth)
      ensures selectedDate == old(selectedDate) && startTime == old(startTime) && endTime == old(endTime)
    {
      if !CanSubmit(location) {
        return None;
      }
      payload := Some(Payload(Title(selectedGroupId, location), location, startTime, endTime, selectedDate, selectedGroupId,
                              DescriptionField(description)));
      selectedGroupId := Some(GroupsSeed[0].id);
      location := LocationsSeed[0];
      description := "";
    }
  }

  /** After a submit the form can be submitted again: the default location is
      not blank. */
  lemma DefaultLocationSubmittable()
    ensures CanSubmit(LocationsSeed[0])
  {
    assert !IsSpace(LocationsSeed[0][0]);
  }
}
