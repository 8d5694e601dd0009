# Pickup-basketball game and group creation, modelled in Dafny

This project models the creation logic of a pickup-basketball app:

- the mobile create-game form (group, location, calendar day, start and end
  slot, description, submit);
- the half-hour time grid it offers, the label parser behind it, and the
  "nearest slot to now" search that seeds the start and end times;
- `parseTimeLabelToDate`, which places a grid label on a calendar day;
- the mobile create-group flow (name, friend search and selection, confirm,
  create);
- the four-step web create-game wizard;
- the in-memory game repository that the flows create games in.

The model is split by source file:

| file | module | models |
|---|---|---|
| `js_text.dfy` | `JsText` | the JavaScript string built-ins the code relies on: `split`, `trim`, ASCII case mapping, `includes`, base-10 `parseInt` (NaN is `None`), and the decimal rendering of a number in a template literal |
| `js_array.dfy` | `JsArray` | `Array.prototype.filter` and its order and duplicate facts |
| `time_slots.dfy` | `TimeSlots` | the `times` grid, `labelToMinutes`, `getNearestSlotNow` and the calendar cells of `src/components/game-creation-flow.native.tsx` |
| `datetime.dfy` | `Datetime` | `parseTimeLabelToDate` of `src/utils/datetime.ts` |
| `create_game_form.dfy` | `CreateGameForm` | the state and handlers of `src/components/game-creation-flow.native.tsx` |
| `group_creation_flow.dfy` | `GroupCreationFlow` | `src/components/group-creation-flow.native.tsx` |
| `game_wizard.dfy` | `GameWizard` | `src/components/game-creation-flow.tsx` |
| `game_repository.dfy` | `GameRepository` | `MockGameRepository` of `src/api/GameRepository.mock.ts` and the seed games of `src/mocks/games.ts` |

React state becomes a Dafny `class`: each `useState` pair is a field, and
each handler is a method with a `modifies` clause. Each method states the
new value of every field. A `Valid()` predicate carries the invariant that
the handlers keep. Pure helpers such as `labelToMinutes`, `toggle`,
`filteredFriends` and `getInitials` become functions, with lemmas about them.
The source's loops are methods with loop invariants: the time-label
generator, the nearest-slot scan and the calendar-cell builder.

JavaScript outcomes are modelled explicitly:

- `labelToMinutes` can return a number or NaN, or throw a TypeError when a
  label has no space (`TimeSlots.Minutes`).
- `getNearestSlotNow` can return a label, return `undefined` for an empty
  list, or propagate that TypeError (`TimeSlots.NearestSlot`).
- `parseTimeLabelToDate` gives the Invalid Date when the hour is NaN.
- The `%` in `labelToMinutes` truncates toward zero (`TimeSlots.JsRem`).

The clock is never read. The current minute of the day, today's date, the
first weekday of a month, its length, and the ids and short dates that come
from `Date.now()` are all parameters.

## Model

| member | source | states |
|---|---|---|
| `TimeSlots.GenerateTimes` | src/components/game-creation-flow.native.tsx:23-33 | the loop over hours 8..23 pushes "h:00 per" and "h:30 per", then "12:00 am", giving exactly the grid `Times()` |
| `TimeSlots.TimesEnds` | src/components/game-creation-flow.native.tsx:23-33 | the grid has 33 labels, from "8:00 am" through "11:30 pm" to "12:00 am" |
| `TimeSlots.GridHours` | src/components/game-creation-flow.native.tsx:26-29 | every generated hour is in 8..23, its 12-hour form is in 1..12, and the period is "pm" exactly from noon |
| `TimeSlots.Hour12` | src/components/game-creation-flow.native.tsx:27 | `((h + 11) % 12) + 1` is in 1..12 and agrees with h modulo 12 |
| `TimeSlots.JsRem` | src/components/game-creation-flow.native.tsx:37 | JavaScript's truncating `%`: the remainder lies strictly between -b and b, has the sign of the dividend, and differs from it by a multiple of b (so it is the Euclidean remainder only for non-negative operands) |
| `TimeSlots.LabelMinutesCases` | src/components/game-creation-flow.native.tsx:34-42 | `labelToMinutes` throws exactly on a label that holds no space (it has no meridiem to lower-case), and the midnight label in any letter case gives 1440 |
| `TimeSlots.LabelMinutesOfParts` | src/components/game-creation-flow.native.tsx:34-42 | a well-formed label "n:mm per" other than midnight gives (n % 12, plus 12 for a case-insensitive "pm") * 60 + mm |
| `TimeSlots.MidnightMinutes` | src/components/game-creation-flow.native.tsx:40 | "12:00 am" gives 1440, so that it sorts after every other label |
| `TimeSlots.SlotMinutes` | src/components/game-creation-flow.native.tsx:23-42 | grid label i parses to 480 + 30i, and the last one to 1440 |
| `TimeSlots.GridMinutesOrdered` | src/components/game-creation-flow.native.tsx:23-42 | along the grid, `labelToMinutes` is defined and strictly increasing; every label except midnight lies within 480..1410 |
| `TimeSlots.TimesNeverThrow` | src/components/game-creation-flow.native.tsx:35-38 | no generated label lacks the meridiem whose absence makes `labelToMinutes` throw |
| `TimeSlots.SlotIsNotMidnight` | src/components/game-creation-flow.native.tsx:28-32 | only the terminal grid entry is the literal "12:00 am" |
| `TimeSlots.GetNearestSlotNow` | src/components/game-creation-flow.native.tsx:44-60 | the result throws exactly when some label throws, and is `undefined` exactly for an empty list; otherwise it is the label at the index where a strict-`<` scan over the distances settles (NaN distances never win; all NaN keeps the first label) |
| `TimeSlots.NearestIsUnique` | src/components/game-creation-flow.native.tsx:44-60 | the scan's answer is determined: two indices both satisfying it are equal |
| `TimeSlots.GridSlotDistances` | src/components/game-creation-flow.native.tsx:50-54 | on the grid every distance is defined and equals the distance of 480 + 30i (midnight as 0) from now |
| `TimeSlots.NearestOnGrid` | src/components/game-creation-flow.native.tsx:44-60 | on the grid the chosen slot has the least distance to now, and every earlier slot is strictly farther |
| `TimeSlots.NearestTieKeepsEarlier` | src/components/game-creation-flow.native.tsx:55 | at 8:15, which is equally far from 8:00 and 8:30, the strict `<` keeps "8:00 am" |
| `TimeSlots.NearestBeforeDawnIsMidnight` | src/components/game-creation-flow.native.tsx:52-53 | because midnight is compared as minute 0, it is the nearest slot at any time before 4:00 am |
| `TimeSlots.CalendarCells` | src/components/game-creation-flow.native.tsx:188-193 | the month grid has firstDayIdx blank cells keyed "e-i", then the cells "d-d" for days 1..daysInMonth, in order |
| `TimeSlots.CellDays` | src/components/game-creation-flow.native.tsx:190-196 | a cell is blank exactly before the first weekday, and day cells count 1, 2, ... from there |
| `TimeSlots.CellKeysDistinct` | src/components/game-creation-flow.native.tsx:192-193 | no two cells share a key |
| `TimeSlots.NatToStringInjective` | src/components/game-creation-flow.native.tsx:192-193 | different numbers render to different template-literal texts |
| `Datetime.ParseTimeLabelToDate` | src/utils/datetime.ts:10-27 | the result keeps the base day's year, month and day, with seconds and milliseconds 0 |
| `Datetime.ParseWellFormedLabel` | src/utils/datetime.ts:13-25 | "n:mm mer" is placed at hour To24(n, lower-cased mer) and minute mm of the base day |
| `Datetime.HourConversion` | src/utils/datetime.ts:19-23 | 12 am becomes hour 0; 1-11 am keep their hour; 12 pm stays 12; 1-11 pm gain 12; any other meridiem leaves the hour as parsed |
| `Datetime.MeridiemIgnoresCase` | src/utils/datetime.ts:14 | meridiems that agree when lower-cased ("PM" and "pm") give the same date |
| `Datetime.SurroundingSpaceIgnored` | src/utils/datetime.ts:13 | white space around the label does not change the result |
| `Datetime.MissingMinutesAreZero` | src/utils/datetime.ts:15-17 | a label without ":mm" lands on the full hour |
| `Datetime.NonNumericMinutesAreZero` | src/utils/datetime.ts:17 | minutes that `parseInt` reads as NaN become 0 |
| `Datetime.EmptyLabelIsInvalid` | src/utils/datetime.ts:16-25 | an empty label has a NaN hour and gives the Invalid Date |
| `Datetime.NoMeridiemKeepsHour` | src/utils/datetime.ts:13-23 | a label "n:mm" with no meridiem has an empty meridiem, so neither rule applies: it lands on hour n and minute mm |
| `Datetime.To24OfHour12` | src/utils/datetime.ts:19-23 | the meridiem rule turns the generator's 12-hour hour and period back into the hour of the day |
| `Datetime.To24` | src/utils/datetime.ts:19-23 | any meridiem other than "am" and "pm" (none included) leaves the hour as parsed; for an hour in 1..12 and "am" or "pm" the result is the only hour of the day in 0..23 whose 12-hour form and period are that hour and meridiem |
| `Datetime.GridLabelFields` | src/utils/datetime.ts:10-27 | the date built from grid slot i keeps the base day and has hour 8 + i/2 (0 for the closing midnight slot), minute 30 for odd slots and 0 otherwise, and zero seconds and milliseconds |
| `Datetime.GridLabelDates` | src/utils/datetime.ts:10-27 | every grid label converts to an hour in 0..23 and a minute of 0 or 30, the same time of day as `labelToMinutes` with midnight as 0 |
| `CreateGameForm.FindGroup` | src/components/game-creation-flow.native.tsx:275 | `find` returns a group with the selected id, or nothing when no group has it |
| `CreateGameForm.Title` | src/components/game-creation-flow.native.tsx:275-276 | when the selected id is seed group k's id, the title is that group's name + " Pickup"; when it names no seed group, it is "Pickup at <location>" |
| `CreateGameForm.CanSubmit` | src/components/game-creation-flow.native.tsx:71 | submit is enabled exactly when the location holds a non-blank character |
| `CreateGameForm.DescriptionField` | src/components/game-creation-flow.native.tsx:284 | the description is left out exactly when it is blank; otherwise it is sent trimmed, with no space at either end |
| `CreateGameForm.Toggled` | src/components/game-creation-flow.native.tsx:101-114 | toggling a menu flips it and closes the four others |
| `CreateGameForm.ToggledOpensAtMostOne` | src/components/game-creation-flow.native.tsx:101-114 | after any toggle at most one menu is open |
| `CreateGameForm.ToggledTwice` | src/components/game-creation-flow.native.tsx:101-114 | toggling the same menu twice restores that menu and leaves the others closed |
| `CreateGameForm.AtMostOneOpenMeans` | src/components/game-creation-flow.native.tsx:101-114 | with at most one menu open, any two open menus are the same menu |
| `CreateGameForm.ShiftMonth` | src/components/game-creation-flow.native.tsx:172-178 | the ◀ and ▶ buttons move the calendar one month back or forward, wrapping the year, and keep the month in 0..11 |
| `CreateGameForm.ShiftMonthBackAndForth` | src/components/game-creation-flow.native.tsx:172-178 | one month back and then one forward returns to the same month |
| `CreateGameForm.MonthIndexInjective` | src/components/game-creation-flow.native.tsx:172-178 | a (year, month) pair with the month in 0..11 is determined by its month count |
| `CreateGameForm.DefaultLocationSubmittable` | src/components/game-creation-flow.native.tsx:286-288 | the location the form starts with, and resets to, lets the form be submitted |
| `CreateGameForm.CreateGameForm.constructor` | src/components/game-creation-flow.native.tsx:13-69 | initial state: group "1", location "FitRec", all menus closed, the calendar on today's month, start and end "8:00 am", empty description |
| `CreateGameForm.CreateGameForm.Open` | src/components/game-creation-flow.native.tsx:73-79 | on opening, start and end both become the grid slot nearest to now; nothing else changes |
| `CreateGameForm.CreateGameForm.ToggleMenu` | src/components/game-creation-flow.native.tsx:101-114 | the flags become the toggled flags, and at most one menu stays open |
| `CreateGameForm.CreateGameForm.SelectGroup` | src/components/game-creation-flow.native.tsx:135 | picking a group sets its id and closes the group menu |
| `CreateGameForm.CreateGameForm.SelectLocation` | src/components/game-creation-flow.native.tsx:151 | picking a location sets it and closes the location menu |
| `CreateGameForm.CreateGameForm.AddNewLocation` | src/components/game-creation-flow.native.tsx:155 | "+ Add new location" only closes the location menu |
| `CreateGameForm.CreateGameForm.PreviousMonth` | src/components/game-creation-flow.native.tsx:172 | the calendar shows the month before, across a year boundary when needed |
| `CreateGameForm.CreateGameForm.NextMonth` | src/components/game-creation-flow.native.tsx:178 | the calendar shows the month after, across a year boundary when needed |
| `CreateGameForm.CreateGameForm.SelectDay` | src/components/game-creation-flow.native.tsx:195-202 | tapping a day selects that day of the month on show and closes the calendar |
| `CreateGameForm.CreateGameForm.SelectStart` | src/components/game-creation-flow.native.tsx:228 | choosing a start time sets both start and end to it and closes the start menu |
| `CreateGameForm.CreateGameForm.SelectEnd` | src/components/game-creation-flow.native.tsx:246 | choosing an end time sets only the end and closes the end menu |
| `CreateGameForm.CreateGameForm.SetDescription` | src/components/game-creation-flow.native.tsx:263 | typing sets the description and nothing else |
| `CreateGameForm.CreateGameForm.Submit` | src/components/game-creation-flow.native.tsx:268-290 | with a blank location nothing happens; otherwise the payload carries the title rule, location, start, end, day, group id and description field, and group, location and description reset to "1", "FitRec" and "" |
| `GroupCreationFlow.CanNext` | src/components/group-creation-flow.native.tsx:20 | Next is enabled exactly when the name holds a non-blank character |
| `GroupCreationFlow.Toggle` | src/components/group-creation-flow.native.tsx:35-37 | the toggled id is selected afterwards exactly when it was not selected before, and no other id changes; an id not yet selected is appended at the end |
| `GroupCreationFlow.ToggleKeepsNoDuplicates` | src/components/group-creation-flow.native.tsx:35-37 | toggling never repeats an id in the selection |
| `GroupCreationFlow.ToggleTwice` | src/components/group-creation-flow.native.tsx:35-37 | selecting an unselected friend and deselecting them restores the selection exactly |
| `GroupCreationFlow.ToggleRemovesOnly` | src/components/group-creation-flow.native.tsx:36 | deselecting removes just that id and keeps the order of the rest |
| `GroupCreationFlow.FilteredFriends` | src/components/group-creation-flow.native.tsx:22-26 | a blank search shows every friend; otherwise a friend is shown exactly when the lower-cased trimmed search is in the lower-cased name; only listed friends are shown |
| `GroupCreationFlow.FilteredFriendsInOrder` | src/components/group-creation-flow.native.tsx:22-26 | the search is applied friend by friend: the result for a joined list is the joined results, and one friend is kept exactly when they match, so the list order is kept |
| `GroupCreationFlow.MatchMeansOccurs` | src/components/group-creation-flow.native.tsx:25 | a match means the search text occurs at some position of the name |
| `GroupCreationFlow.SelectedFriends` | src/components/group-creation-flow.native.tsx:21 | exactly the listed friends whose id is selected, taken from the friend list |
| `GroupCreationFlow.SelectedFriendsInOrder` | src/components/group-creation-flow.native.tsx:21 | the selection follows the friend list, not the order of tapping: the result for a joined list is the joined results, and one friend is kept exactly when their id is selected |
| `GroupCreationFlow.SelectedFriendsNoDuplicates` | src/components/group-creation-flow.native.tsx:21 | a friend list without repeats gives a selection without repeats |
| `GroupCreationFlow.Initials` | src/components/group-creation-flow.native.tsx:28-33 | initials are at most two characters; which ones is stated by `InitialsBlank`, `InitialsOfOneWord` and `InitialsOfFirstTwoWords` |
| `GroupCreationFlow.InitialsBlank` | src/components/group-creation-flow.native.tsx:28-33 | a name has no initials exactly when it is blank; otherwise the first initial is its first non-blank character, upper-cased |
| `GroupCreationFlow.InitialsOfOneWord` | src/components/group-creation-flow.native.tsx:28-33 | a one-word name gives exactly one initial, its upper-cased first letter |
| `GroupCreationFlow.InitialsOfTwoWords` | src/components/group-creation-flow.native.tsx:28-33 | two words separated by any run of white space give the upper-cased first letters of both |
| `GroupCreationFlow.InitialsOfFirstTwoWords` | src/components/group-creation-flow.native.tsx:28-33 | a name that starts with two words gives the upper-cased first letters of those two, whatever words follow |
| `GroupCreationFlow.TrimAfterTwoWords` | src/components/group-creation-flow.native.tsx:29 | trimming a name that starts with two words keeps both words and cuts only the tail after them |
| `GroupCreationFlow.SplitTwoWords` | src/components/group-creation-flow.native.tsx:29 | `split(/\s+/)` of word, white space, word and a tail starting with white space has those two words as its first two pieces |
| `GroupCreationFlow.WordPrefixOfWord` | src/components/group-creation-flow.native.tsx:29 | the first piece of `split(/\s+/)` on a word followed by white space is that word |
| `GroupCreationFlow.TrimStartOfGap` | src/components/group-creation-flow.native.tsx:29 | a run of white space before a word is consumed entirely as one separator |
| `GroupCreationFlow.GroupForm.constructor` | src/components/group-creation-flow.native.tsx:14-18 | the flow starts on the form step with empty name, search and selection |
| `GroupCreationFlow.GroupForm.SetName` | src/components/group-creation-flow.native.tsx:49 | typing on the form step sets the name |
| `GroupCreationFlow.GroupForm.SetSearch` | src/components/group-creation-flow.native.tsx:58 | typing sets the search |
| `GroupCreationFlow.GroupForm.ToggleFriend` | src/components/group-creation-flow.native.tsx:69 | tapping a row toggles that id and keeps the selection free of repeats |
| `GroupCreationFlow.GroupForm.Next` | src/components/group-creation-flow.native.tsx:88 | Next moves to the confirm step only when the name is not blank |
| `GroupCreationFlow.GroupForm.Back` | src/components/group-creation-flow.native.tsx:96-136 | the back arrow and Cancel return to the form step and keep name and selection |
| `GroupCreationFlow.GroupForm.Create` | src/components/group-creation-flow.native.tsx:141-147 | emits the trimmed name, which is non-empty, and the selected ids without repeats; then it clears name and selection and returns to the form step |
| `GameWizard.ToggleFriendIn` | src/components/game-creation-flow.tsx:86-95 | the friend list keeps its length, order, ids and names; a friend's selection flips exactly when the friend has the tapped id |
| `GameWizard.ToggleFriendTwice` | src/components/game-creation-flow.tsx:86-95 | tapping the same friend twice restores the list |
| `GameWizard.ToggleFriendCount` | src/components/game-creation-flow.tsx:86-97 | with unique ids, a tap changes the number of selected friends by exactly one: down if the friend was selected, up if not |
| `GameWizard.SelectedFriends` | src/components/game-creation-flow.tsx:97 | exactly the friends whose flag is set |
| `GameWizard.SelectedFriendsInOrder` | src/components/game-creation-flow.tsx:97 | the selection is taken friend by friend: the result for a joined list is the joined results, so it is a sub-list in list order |
| `GameWizard.FilteredFriends` | src/components/game-creation-flow.tsx:98-100 | a friend is shown exactly when the lower-cased search term, untrimmed, is in the lower-cased name |
| `GameWizard.FilteredFriendsInOrder` | src/components/game-creation-flow.tsx:98-100 | the search is applied friend by friend: the result for a joined list is the joined results, so it is a sub-list in list order |
| `GameWizard.EmptySearchShowsAll` | src/components/game-creation-flow.tsx:98-100 | an empty search shows the whole list, in order |
| `GameWizard.AvatarInitials` | src/components/game-creation-flow.tsx:218 | the avatar fallback has at most one character per space-separated piece |
| `GameWizard.AvatarInitialsOfTwoWords` | src/components/game-creation-flow.tsx:218 | "First Last" falls back to the two upper-cased first letters |
| `GameWizard.NextDisabled` | src/components/game-creation-flow.tsx:359-362 | only the details and friends steps can disable Next, so the date and review steps never block; on the details step Next is disabled exactly when the title, the location or the time is empty; on the friends step Next is enabled exactly when some friend is selected |
| `GameWizard.GameWizard.constructor` | src/components/game-creation-flow.tsx:58-70 | step 1, empty title, location, time and description, 10 players, the ten mock friends unselected, empty search |
| `GameWizard.GameWizard.Next` | src/components/game-creation-flow.tsx:72-74 | the enabled Next button advances one step; the wizard invariant holds, so the review step is reached only with title, location and time filled in and a friend selected |
| `GameWizard.GameWizard.Previous` | src/components/game-creation-flow.tsx:76-78 | one step back, never below step 1 |
| `GameWizard.GameWizard.Complete` | src/components/game-creation-flow.tsx:80-84 | hands over the current data, which has title, location and time and at least one invited friend; the step goes back to 1 and the data is not cleared |
| `GameWizard.GameWizard.SetTitle` | src/components/game-creation-flow.tsx:112 | sets the title |
| `GameWizard.GameWizard.SetLocation` | src/components/game-creation-flow.tsx:122 | sets the location |
| `GameWizard.GameWizard.SetTime` | src/components/game-creation-flow.tsx:140 | sets the time |
| `GameWizard.GameWizard.SetMaxPlayers` | src/components/game-creation-flow.tsx:151 | sets the player cap to `parseInt` of the input, NaN included |
| `GameWizard.GameWizard.SetDescription` | src/components/game-creation-flow.tsx:161 | sets the description |
| `GameWizard.GameWizard.SelectDate` | src/components/game-creation-flow.tsx:177 | a picked date replaces the date; a cleared selection keeps the old date |
| `GameWizard.GameWizard.SetSearchTerm` | src/components/game-creation-flow.tsx:200 | sets the search term |
| `GameWizard.GameWizard.ToggleFriend` | src/components/game-creation-flow.tsx:212 | the friend list becomes the toggled list; the friends stay the ten mock friends in order |
| `GameWizard.GameWizard.SetSaveAsGroup` | src/components/game-creation-flow.tsx:232-239 | sets the "save as group" flag, which is offered once more than two friends are selected |
| `GameWizard.GameWizard.SetGroupName` | src/components/game-creation-flow.tsx:244-248 | sets the group name |
| `GameRepository.QuickGameDate` | src/api/GameRepository.mock.ts:37 | a quick game is dated "Today" or "Tomorrow" |
| `GameRepository.QuickGameDateToday` | src/api/GameRepository.mock.ts:37 | the date is "Today" exactly when "Today" occurs somewhere in the time text |
| `GameRepository.QuickGameDateTodayExample` | src/api/GameRepository.mock.ts:37 | "Today 7:00 PM" gives a game today |
| `GameRepository.QuickGameDateCaseSensitive` | src/api/GameRepository.mock.ts:37 | the match is case-sensitive: "today" gives "Tomorrow" |
| `GameRepository.PrependKeepsSeed` | src/api/GameRepository.mock.ts:28-49 | prepending a game keeps the seed games as the oldest entries |
| `GameRepository.MockGameRepository.constructor` | src/api/GameRepository.mock.ts:7 | the repository starts with exactly the three seed games |
| `GameRepository.MockGameRepository.ListGames` | src/api/GameRepository.mock.ts:9-13 | returns the current list and changes nothing |
| `GameRepository.MockGameRepository.CreateGame` | src/api/GameRepository.mock.ts:15-30 | the new game copies title, time, location and the player cap, has no participants, is upcoming and joined, and goes in front of the unchanged old list |
| `GameRepository.MockGameRepository.CreateQuickGame` | src/api/GameRepository.mock.ts:32-50 | the new game is titled "Quick Game - Group <id>", dated by the "Today" rule, at Riverside Park with the three default players and room for ten, upcoming and joined, in front of the unchanged old list |

## Left out

- Rendering, styles, modal and scroll layout, and the scroll-to-selected-row effects are not modelled.
- The `onClose` and `onComplete` callbacks, and the `isOpen` prop, are not modelled. `Submit`, `Create` and `Complete` return what the source hands to `onComplete`.
- The clock, locale and time zone are not modelled: `new Date()`, `getHours`, `getDay`, `toLocaleDateString`, `toDateString`, `toISOString` and `formatShortDate` (src/utils/datetime.ts:1-7). The minute of the day, today's date, the first weekday and the length of a month, and the repository's short date are parameters.
- `CreateGameForm.CreateGameForm.Submit`: the payload carries the selected calendar day, not the `dateISO` string that `toISOString` makes of its local midnight.
- `Datetime.ParseTimeLabelToDate`: parsing `baseDateISO` into a day is not modelled; the base day is a parameter. The result is the field list handed to the `Date` constructor, without its rollover of out-of-range hours or minutes.
- `Datetime.ParseTimeLabelToDate`: the Invalid Date from a NaN hour is modelled; a NaN year, month or day from an invalid base string is not.
- Strings are sequences of Unicode scalar values, while JavaScript indexes UTF-16 code units. `parts[0]?.[0]` (src/components/group-creation-flow.native.tsx:30-31) and `n[0]` (src/components/game-creation-flow.tsx:218) take the first code unit, so for a name that starts with a character outside the Basic Multilingual Plane the source gives half a surrogate pair where `GroupCreationFlow.Initials` and `GameWizard.AvatarInitials` give the whole character.
- Numbers are unbounded integers. JavaScript numbers are doubles, so `parseInt` of a digit string longer than about 15 digits loses precision in the source, and the arithmetic in `labelToMinutes` and `parseTimeLabelToDate` is exact here.
- Only ASCII white space and ASCII letters are modelled. `trim` and `\s` also skip Unicode spaces, and `toLowerCase`/`toUpperCase` also map non-ASCII letters.
- `GameWizard.GameWizard.SelectDate`: the calendar's disabling of days before today is not modelled, because it needs the clock.
- `src/mocks/friends` is not part of this model, so the mobile group flow takes its friend list as a parameter.
- The create-game form's selected-day highlight is not modelled. Neither are the labels shown on its buttons: the group name or "Select group", and the location or "Select location".
- The async latency and the `Date.now()` ids of the repository are not modelled. Ids are parameters.
- `src/api/index.ts`, which lazily builds a single repository, is not modelled.
- The interface `src/api/GameRepository.ts` is not modelled, and neither is the glue in `App.tsx` and `App.native.tsx`.
- The web wizard's `commonLocations` list is not modelled. It only feeds an HTML datalist of suggestions.
