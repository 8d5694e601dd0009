/** The web create-game wizard: four steps (details, date, friends, review),
    the game data it collects, the friend list whose `isSelected` flags the
    friends step flips, and the rule that disables "Next". */
module GameWizard {
  import opened JsText
  import opened JsArray
  import opened Datetime

  datatype WizardFriend = WizardFriend(id: string, name: string, isSelected: bool)

  const MockFriends: seq<WizardFriend> := [
    WizardFriend("1", "Alex Rodriguez", false),
    WizardFriend("2", "Maya Patel", false),
    WizardFriend("3", "Chris Johnson", false),
    WizardFriend("4", "Sarah Chen", false),
    WizardFriend("5", "Marcus Davis", false),
    WizardFriend("6", "Lisa Wang", false),
    WizardFriend("7", "Tyler Brown", false),
    WizardFriend("8", "Emma Wilson", false),
    WizardFriend("9", "Jordan Smith", false),
    WizardFriend("10", "David Lee", false)
  ]

  /** The wizard's `gameData`; `maxPlayers` is `None` where `parseInt` of the
      number box gives NaN. */
  datatype GameData = GameData(
    title: string,
    location: string,
    date: CalendarDate,
    time: string,
    maxPlayers: Option<int>,
    description: string,
    friends: seq<WizardFriend>,
    saveAsGroup: bool,
    groupName: string)

  function InitialData(today: CalendarDate): GameData {
    GameData("", "", today, "", Some(10), "", MockFriends, false, "")
  }

  /** `toggleFriend(id)`: every friend with that id has its selection
      flipped; nobody else changes and the order is kept. */
  function ToggleFriendIn(friends: seq<WizardFriend>, id: string): (r: seq<WizardFriend>)
    ensures |r| == |friends|
    ensures forall i :: 0 <= i < |r| ==> r[i].id == friends[i].id && r[i].name == friends[i].name
    ensures forall i :: 0 <= i < |r| ==> (r[i].isSelected != friends[i].isSelected <==> friends[i].id == id)
  {
    seq(|friends|, i requires 0 <= i < |friends| =>
      if friends[i].id == id then friends[i].(isSelected := !friends[i].isSelected) else friends[i])
  }

  /** Tapping the same friend twice restores the list. */
  lemma ToggleFriendTwice(friends: seq<WizardFriend>, id: string)
    ensures ToggleFriendIn(ToggleFriendIn(friends, id), id) == friends
  {
    var r := ToggleFriendIn(ToggleFriendIn(friends, id), id);
    assert forall i :: 0 <= i < |r| ==> r[i] == friends[i];
  }

  /** `selectedFriends`: the friends whose flag is set, in list order. */
  function SelectedFriends(friends: seq<WizardFriend>): (r: seq<WizardFriend>)
    ensures forall i :: 0 <= i < |r| ==> r[i] in friends && r[i].isSelected
    ensures forall i :: 0 <= i < |friends| && friends[i].isSelected ==> friends[i] in r
  {
    Filter(friends, (f: WizardFriend) => f.isSelected)
  }

  /** The selection is taken friend by friend, so it keeps the list order. */
  lemma SelectedFriendsInOrder(a: seq<WizardFriend>, b: seq<WizardFriend>, f: WizardFriend)
    ensures SelectedFriends(a + b) == SelectedFriends(a) + SelectedFriends(b)
    ensures SelectedFriends([f]) == if f.isSelected then [f] else []
  {
    FilterAppend(a, b, (g: WizardFriend) => g.isSelected);
  }

  /** With ids unique, tapping a friend changes the selected count by one:
      down when they were selected, up otherwise. */
  lemma ToggleFriendCount(friends: seq<WizardFriend>, k: nat)
    requires k < |friends|
    requires forall j :: 0 <= j < |friends| && j != k ==> friends[j].id != friends[k].id
    ensures |SelectedFriends(ToggleFriendIn(friends, friends[k].id))|
         == |SelectedFriends(friends)| + (if friends[k].isSelected then -1 else 1)
  {
    var p := (f: WizardFriend) => f.isSelected;
    var id := friends[k].id;
    var pre, x, post := friends[..k], friends[k], friends[k + 1..];
    var x' := x.(isSelected := !x.isSelected);
    var r := ToggleFriendIn(friends, id);
    assert friends == pre + [x] + post;
    assert r == pre + [x'] + post;
    FilterAppend(pre + [x], post, p);
    FilterAppend(pre, [x], p);
    FilterAppend(pre + [x'], post, p);
    FilterAppend(pre, [x'], p);
    assert Filter([x], p) == (if x.isSelected then [x] else []);
    assert Filter([x'], p) == (if x'.isSelected then [x'] else []);
  }

  /** `filteredFriends`: the friends whose lower-cased name contains the
      lower-cased search term (not trimmed), in list order. */
  function FilteredFriends(friends: seq<WizardFriend>, searchTerm: string): (r: seq<WizardFriend>)
    ensures forall i :: 0 <= i < |r| ==> r[i] in friends && Includes(ToLower(r[i].name), ToLower(searchTerm))
    ensures forall i :: 0 <= i < |friends| && Includes(ToLower(friends[i].name), ToLower(searchTerm)) ==> friends[i] in r
  {
    Filter(friends, (f: WizardFriend) => Includes(ToLower(f.name), ToLower(searchTerm)))
  }

  /** The search is applied friend by friend, so it keeps the list order. */
  lemma FilteredFriendsInOrder(a: seq<WizardFriend>, b: seq<WizardFriend>, f: WizardFriend, searchTerm: string)
    ensures FilteredFriends(a + b, searchTerm) == FilteredFriends(a, searchTerm) + FilteredFriends(b, searchTerm)
    ensures FilteredFriends([f], searchTerm) ==
      if Includes(ToLower(f.name), ToLower(searchTerm)) then [f] else []
  {
    FilterAppend(a, b, (g: WizardFriend) => Includes(ToLower(g.name), ToLower(searchTerm)));
  }

  /** An empty search shows every friend. */
  lemma EmptySearchShowsAll(friends: seq<WizardFriend>)
    ensures FilteredFriends(friends, "") == friends
  {
    var p := (f: WizardFriend) => Includes(ToLower(f.name), ToLower(""));
    forall i | 0 <= i < |friends| ensures p(friends[i]) {
      assert ToLower("") == [];
      assert [] <= ToLower(friends[i].name);
    }
    FilterKeepsAll(friends, p);
  }

  /** The avatar fallback `name.split(' ').map(n => n[0]).join('')`: the
      first character of each space-separated piece (an empty piece adds
      nothing), upper-cased. */
  function AvatarInitials(name: string): (r: string)
    ensures |r| <= |Split(name, ' ')|
  {
    ToUpper(FirstChars(Split(name, ' ')))
  }

  function FirstChars(parts: seq<string>): (r: string)
    ensures |r| <= |parts|
    decreases |parts|
  {
    if parts == [] then []
    else (if parts[0] != [] then [parts[0][0]] else []) + FirstChars(parts[1..])
  }

  /** "Maya Patel" falls back to "MP". */
  lemma AvatarInitialsOfTwoWords(a: string, b: string)
    requires a != [] && b != [] && ' ' !in a && ' ' !in b
    ensures AvatarInitials(a + " " + b) == [UpperChar(a[0]), UpperChar(b[0])]
  {
    SplitFirst(a, ' ', b);
    SplitNoSeparator(b, ' ');
    assert Split(a + " " + b, ' ') == [a, b];
    assert FirstChars([a, b]) == [a[0]] + FirstChars([b]);
    assert FirstChars([b]) == [b[0]] + FirstChars([]);
  }

  /** The "Next" button's `disabled`: on the details step while title,
      location or time is empty, on the friends step while nobody is
      selected; the date step never blocks. */
  function NextDisabled(step: int, data: GameData): (r: bool)
    ensures r ==> step == 1 || step == 3
    ensures step == 1 ==> (r <==> data.title == "" || data.location == "" || data.time == "")
    ensures step == 3 ==> (!r <==> exists i :: 0 <= i < |data.friends| && data.friends[i].isSelected)
  {
    var selected := SelectedFriends(data.friends);
    assert selected != [] ==> selected[0] in data.friends;
    (step == 1 && (data.title == "" || data.location == "" || data.time == ""))
    || (step == 3 && |selected| == 0)
  }

  /** Every friend of the list is a mock friend at its original place, with
      only the selection flag possibly changed. */
  predicate SameFriends(friends: seq<WizardFriend>) {
    |friends| == |MockFriends|
    && forall i :: 0 <= i < |friends| ==> friends[i].id == MockFriends[i].id && friends[i].name == MockFriends[i].name
  }

  class GameWizard {
    var step: int
    var data: GameData
    var searchTerm: string

    /** The step is 1..4; past the details step the three required fields
        are filled in; the review step has someone invited. */
    predicate Valid()
      reads this
    {
      && 1 <= step <= 4
      && SameFriends(data.friends)
      && (step >= 2 ==> data.title != "" && data.location != "" && data.time != "")
      && (step == 4 ==> !NextDisabled(3, data))
    }

    constructor(today: CalendarDate)
      ensures Valid()
      ensures step == 1 && data == InitialData(today) && searchTerm == ""
    {
      step := 1;
      data := InitialData(today);
      searchTerm := "";
    }

    /** `handleNext` behind the enabled "Next" button, which steps 1 to 3 show. */
    method Next()
      requires Valid() && step < 4 && !NextDisabled(step, data)
      modifies this
      ensures Valid()
      ensures step == old(step) + 1 && data == old(data) && searchTerm == old(searchTerm)
    {
      if step < 4 {
        step := step + 1;
      }
    }

    /** `handlePrevious`: one step back, never below the first. */
    method Previous()
      requires Valid()
      modifies this
      ensures Valid()
      ensures step == (if old(step) > 1 then old(step) - 1 else 1)
      ensures data == old(data) && searchTerm == old(searchTerm)
    {
      if step > 1 {
        step := step - 1;
      }
    }

    /** `handleComplete` on the review step: hands over the data and goes
        back to the first step; the data itself is not cleared. */
    method Complete() returns (result: GameData)
      requires Valid() && step == 4
      modifies this
      ensures Valid()
      ensures result == old(data) && data == old(data) && step == 1 && searchTerm == old(searchTerm)
      ensures result.title != "" && result.location != "" && result.time != ""
      ensures exists i :: 0 <= i < |result.friends| && result.friends[i].isSelected
    {
      result := data;
      step := 1;
    }

    /** The title box of the details step. */
    method SetTitle(text: string)
      requires Valid() && step == 1
      modifies this
      ensures Valid()
      ensures data == old(data).(title := text) && step == old(step) && searchTerm == old(searchTerm)
    {
      data := data.(title := text);
    }

    method SetLocation(text: string)
      requires Valid() && step == 1
      modifies this
      ensures Valid()
      ensures data == old(data).(location := text) && step == old(step) && searchTerm == old(searchTerm)
    {
      data := data.(location := text);
    }

    method SetTime(text: string)
      requires Valid() && step == 1
      modifies this
      ensures Valid()
      ensures data == old(data).(time := text) && step == old(step) && searchTerm == old(searchTerm)
    {
      data := data.(time := text);
    }

    /** The number box: `parseInt` of what was typed, NaN as `None`. */
    method SetMaxPlayers(text: string)
      requires Valid() && step == 1
      modifies this
      ensures Valid()
      ensures data == old(data).(maxPlayers := ParseInt(text)) && step == old(step) && searchTerm == old(searchTerm)
    {
      data := data.(maxPlayers := ParseInt(text));
    }

    method SetDescription(text: string)
      requires Valid() && step == 1
      modifies this
      ensures Valid()
      ensures data == old(data).(description := text) && step == old(step) && searchTerm == old(searchTerm)
    {
      data := data.(description := text);
    }

    /** The calendar's `onSelect`: a cleared selection (`None`) keeps the old date. */
    method SelectDate(date: Option<CalendarDate>)
      requires Valid() && step == 2
      modifies this
      ensures Valid()
      ensures data == (if date.Some? then old(data).(date := date.value) else old(data))
      ensures step == old(step) && searchTerm == old(searchTerm)
    {
      if date.Some? {
        data := data.(date := date.value);
      }
    }

    method SetSearchTerm(text: string)
      requires Valid()
      modifies this
      ensures Valid()
      ensures searchTerm == text && data == old(data) && step == old(step)
    {
      searchTerm := text;
    }

    /** Tapping a friend row on the friends step. */
    method ToggleFriend(id: string)
      requires Valid() && step == 3
      modifies this
      ensures Valid()
      ensures data == old(data).(friends := ToggleFriendIn(old(data.friends), id))
      ensures step == old(step) && searchTerm == old(searchTerm)
    {
      data := data.(friends := ToggleFriendIn(data.friends, id));
    }

    /** The "Save as recurring group" box, shown once more than two friends are selected. */
    method SetSaveAsGroup(checked: bool)
      requires Valid() && step == 3 && |SelectedFriends(data.friends)| > 2
      modifies this
      ensures Valid()
      ensures data == old(data).(saveAsGroup := checked) && step == old(step) && searchTerm == old(searchTerm)
    {
      data := data.(saveAsGroup := checked);
    }

    method SetGroupName(text: string)
      requires Valid() && step == 3 && |SelectedFriends(data.friends)| > 2 && data.saveAsGroup
      modifies this
      ensures Valid()
      ensures data == old(data).(groupName := text) && step == old(step) && searchTerm == old(searchTerm)
    {
      data := data.(groupName := text);
    }
  }
}
