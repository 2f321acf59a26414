# Learning tracker: a verified model

A Dafny model of the learning-tracker widget in `script.js`. The widget keeps a
week strip of seven day cards, starting on a Sunday. For each day it stores a
record of topics by id, and each topic holds an ordered list of resources:
links or notes, each with an optional free-text duration. A time picker with
hours 0–12 and minutes in steps of 5 writes that duration as a label such as
"2 hours 5 mins". When the picker opens, it reads a label already in the field
back into a selection.

Modules:

- `Options`: an `Option` type.
- `Strings`: the JavaScript primitives the widget relies on.
  - `trim` over the ECMAScript white-space set.
  - The decimal text of a number in a template string.
  - `parseInt(d, 10)` on a run of digits.
  - The `\s` and `\d` classes, and the `i` flag, of its two regular expressions.
- `Calendar`: dates as integer day numbers (day 0 is Thursday 1 January 1970), `getDay` and `getStartOfWeek`.
- `Duration`: the label the picker writes, and how `openTimePicker` reads text back. Each of its two regular expressions becomes a dedicated matcher.
  - Minutes-only: `^(\d+)\s*(?:minutes?|mins?)$` with the `i` flag.
  - General: `(\d+)\s*(?:hours?|hrs?)?(?:\s+(\d+)\s*(?:minutes?|mins?)?)?` with the `i` flag.
  - The minute rounding `Math.floor(m / 5) * 5`.
  - The round trip from a selection to its label and back.
- `Store`: the store as a value, `map<int, map<string, Topic>>`, and the updates the handlers make to it, each with what it changes and what it leaves alone.
- `LearningTracker`: the `state` object as the class `Tracker`. Its handlers are methods that update its fields in place.
  - The class also holds three values kept in the page: the duration field (`timeText`), the picker's display text (`timeDisplay`), and what local storage holds (`persisted`).
  - Each handler's `ensures` ties the new state to the `Store` and `Duration` functions.
- `Scenarios`: worked label examples.

Modelling choices:

- Topic ids, timestamps and the answer to `confirm(...)` are parameters.
- A handler that reads a missing day or topic record throws a TypeError in the source before it changes anything. The model returns `Outcome.Threw` with the state unchanged.
- `handleTopicSubmit` requires a selected day. The add-topic button is enabled only by `selectDay` (script.js:373).

Behaviours of the code that are easy to misread, all followed by the model:

- Existing text that neither pattern reads leaves the picker's previous selection in place; the picker is not reset.
- `openTimePicker`'s comments say minutes are rounded "to nearest 5". The code rounds down.
- A topic id that is already taken in the day replaces that topic.
- Opening the picker on a typed duration rewrites the field, because `selectHour`/`selectMinute` refresh the display. "1 hour 7 mins" becomes "1 hour 5 mins" (`Duration.ParseBackLabel`).

## Model

| member | source | states |
|---|---|---|
| Strings.Trim | script.js:653 | `trim()` leaves no white space at either end, and the result is empty exactly when the input is all white space |
| Strings.TrimOfPadded | script.js:569-574 | trimming text that is white space, then trimmed text, then white space gives back exactly the middle part |
| Strings.TrimIdempotent | script.js:569-574 | trimming twice is trimming once |
| Strings.Show | script.js:223 | the decimal text of a number is non-empty, all digits, and starts with 0 only for 0 |
| Strings.ParseShow | script.js:139 | `ParseDecimal`: `parseInt` of the decimal text of `n` is `n` |
| Strings.ParseLeadingZeros | script.js:139 | `ParseDecimal`: leading zeros do not change what `parseInt` reads, so "05" is 5 |
| Strings.AllZeros | script.js:139 | `ParseDecimal`: a run of zeros reads as 0 |
| Strings.DigitRunOver | script.js:137 | the leading run of `\d+` over digits followed by a non-digit is exactly the digits |
| Strings.SpaceRunOver | script.js:137 | the leading run of `\s*` over white space followed by a non-space is exactly the white space |
| Calendar.DayOfWeek | script.js:269 | `getDay()` is 0 (Sunday) to 6 |
| Calendar.StartOfWeek | script.js:267-272 | `getStartOfWeek` gives a Sunday that is not after the day and less than a week before it |
| Calendar.ShiftKeepsDayOfWeek | script.js:708-712 | moving by `7 * direction` days keeps the day of the week |
| Calendar.StartOfWeekWithin | script.js:267-272 | each day of a week starting on a Sunday has that Sunday as its week start |
| Duration.RoundDown5 | script.js:142 | `Math.floor(m / 5) * 5` is a multiple of 5 at most `m` and more than `m - 5` |
| Duration.FirstDigit | script.js:151 | an unanchored match of the general pattern can start only at the first digit of the text |
| Duration.ParseBack | script.js:129-164 | empty text selects nothing; minutes-only text selects hour 0 and its minutes rounded down to 5; other text the general pattern reads selects the captured hours and the captured minutes rounded down to 5; nothing is selected exactly when neither pattern matches |
| Duration.MinutesOnlyAccepts | script.js:137-139 | `MatchMinutesOnly`: any non-empty digits, leading zeros included, then white space, then any spelling of a minute unit in any letter case, is read as the `parseInt` of the digits |
| Duration.MinutesOnlyShape | script.js:137-139 | `MatchMinutesOnly`, converse: the anchored pattern matches only a whole text of digits, white space and a minute unit, and reads the digits |
| Duration.ZeroHourLabel | script.js:215-221 | with 0 hours the label is the minutes alone, "m min" plus "s" unless m is 1, and "0 mins" when no minute is selected or it is 0 |
| Duration.MinutesOnlyLabel | script.js:137-142 | a minutes-only label is read by the minutes-only pattern as its minutes |
| Duration.SameLabel | script.js:210-264 | `Label`: two selections get the same label exactly when they have the same hour and show the same minute |
| Duration.LabelRead | script.js:210-264 | `Label`: a label without hours is read by the minutes-only pattern as its minutes; a label with hours is refused by it and read by the general pattern as its hours and shown minute |
| Duration.HoursMinutesNeedsDigit | script.js:151-154 | `MatchHoursMinutes`: the unanchored general pattern matches exactly when the text holds a digit, and its hours are the first run of digits |
| Duration.HoursLabel | script.js:151-157 | a label with hours is refused by the minutes-only pattern and read by the general one as its hours and shown minutes |
| Duration.MinuteSuffixGroup | script.js:226-229 | the " m min(s)" tail after the hours is read as `m` by the optional minute group, and no tail as 0 |
| Duration.ParseBackLabel | script.js:129-164 | opening the picker on a label it wrote selects that label's hour and its minutes rounded down to a multiple of 5 |
| Duration.PickerSelectionRoundTrip | script.js:94-113 | every selection the picker offers (minutes a multiple of 5) is restored exactly from its own label |
| Scenarios.HalfHourLabel | script.js:216-218 | hour 0 and minute 30 give "30 mins" |
| Scenarios.OneHourLabel | script.js:223-224 | hour 1 and minute 0 give "1 hour" |
| Scenarios.HoursAndMinutesLabel | script.js:223-229 | hour 2 and minute 5 give "2 hours 5 mins" |
| Scenarios.NothingLabel | script.js:216-221 | hour 0 with minute 0 or no minute gives "0 mins" |
| Scenarios.SingularLabel | script.js:223-229 | hour 1 and minute 1 give "1 hour 1 min", with both units singular |
| Store.BadgeIffRecord | script.js:337 | while no day record is empty, a day card shows a topic count exactly when the day has a record |
| Store.WithTopicEffect | script.js:658-670 | `WithTopic`: adding a topic gives the day the id with the topic, creating the record if missing; other topics and days are unchanged; the count grows by one exactly for a new id; no empty record appears |
| Store.WithoutTopicEffect | script.js:680-688 | `WithoutTopic`: deleting a topic removes exactly that id; the day's record stays exactly when topics remain, so no empty record is left; other days and topics are unchanged; the count drops by one exactly when the id was there |
| Store.RemoveAfterAdd | script.js:650-688 | deleting a topic just added under a new id restores the store, including the day's missing record |
| Store.WithResources | script.js:699 | replacing a topic's resources keeps its title and creation time and every other topic and day |
| Store.RemoveAt | script.js:699 | removing position k keeps the earlier resources, shifts the later ones down, and the result plus the removed one is a permutation of the list |
| Store.SpliceOne | script.js:699 | `splice(index, 1)` removes position `index` when it is in range, counts a negative index from the end, removes the first element for a negative index before the start, removes nothing past the end, and leaves an empty list empty |
| Store.DeleteAfterAppend | script.js:606 | deleting the resource just appended restores the list |
| Store.ButtonText | script.js:571 | the button text is never empty: the trimmed text when it is not blank, otherwise "Link" |
| Store.FromForm | script.js:568-587 | each stored text is the trimmed text of its field, and the button text is `ButtonText` of its field; so every stored text is trimmed, the title is empty exactly when the typed title is blank, and the button text is never empty; stamped with the creation reading of the clock and not edited |
| Store.EditedAt | script.js:590-603 | an edit replaces only the edited position; it keeps the original's non-empty `addedAt`, stamps `editedAt`, and keeps the other submitted fields; the length changes only when the index is one past the end |
| LearningTracker.SubmittedResources | script.js:588-607 | adding appends, so the old list is a prefix; editing an existing position keeps the length and every other position |
| LearningTracker.Tracker.constructor | script.js:3-12 | start-up shows the week of today, starting on a Sunday, with no day selected; loads the stored data, or an empty store when nothing was stored; the picker is closed with nothing selected |
| LearningTracker.Tracker.SelectDay | script.js:354-355 | the selected day becomes the clicked day |
| LearningTracker.Tracker.ChangeWeek | script.js:708-715 | the week start moves by exactly `7 * direction` days and is still a Sunday and its own week start |
| LearningTracker.ForwardThenBack | script.js:52-53 | the next-week button then the previous-week button returns to the same week and changes nothing else |
| LearningTracker.Tracker.WeekTopicCounts | script.js:313-321 | the seven cards show the topic counts of the seven days from the week start |
| LearningTracker.Tracker.HandleTopicSubmit | script.js:650-677 | a blank title changes nothing; otherwise the day gets the new topic with the trimmed title and no resources, the store is saved, the picker closes, and no empty record appears |
| LearningTracker.Tracker.AddTopic | script.js:658-673 | the day's record, created if missing, gets the topic, and the store is saved |
| LearningTracker.Tracker.DeleteTopic | script.js:680-694 | declining changes nothing; a missing day record throws and changes nothing; otherwise the topic is removed and the day too if it is left empty, and the store is saved |
| LearningTracker.Tracker.DeleteResource | script.js:697-705 | declining changes nothing; a missing record throws; otherwise the resource at the index is spliced out and the store is saved |
| LearningTracker.Tracker.HandleLinkSubmit | script.js:565-617 | a blank title changes nothing; otherwise the record built from the fields and the duration field, stamped with the first clock reading, is stored as `SaveResource` states, an edit stamped with the second reading |
| LearningTracker.Tracker.SaveResource | script.js:588-612 | a missing topic record throws and changes nothing; otherwise the record is appended, or written at the edited index with `addedAt` kept and `editedAt` stamped; the store is saved and the picker closes |
| LearningTracker.Tracker.OpenLinkModal | script.js:620-628 | the dialog opens with the duration field empty, the display "Select time" and no hour or minute selected |
| LearningTracker.Tracker.OpenEditResourceModal | script.js:527-546 | the duration field and the display take the edited resource's duration, with "Select time" when it has none; a missing resource throws |
| LearningTracker.Tracker.UpdateTimeDisplay | script.js:210-235 | with an hour selected, the field and the display both show the label of the selection; otherwise nothing changes |
| LearningTracker.Tracker.ApplyTimeSelection | script.js:238-264 | writes the same label as `updateTimeDisplay` and closes the picker; with no hour selected nothing changes |
| LearningTracker.Tracker.SelectHour | script.js:173-183 | the hour is selected and the field shows the new label |
| LearningTracker.Tracker.SelectMinute | script.js:186-196 | the minute is selected; the field shows the new label once an hour is selected |
| LearningTracker.Tracker.CloseTimePicker | script.js:167-170 | the picker is closed |
| LearningTracker.Tracker.OpenTimePicker | script.js:129-164 | the picker opens; text a pattern reads becomes the selection, rounded down to 5 minutes, and is rewritten as its label; other text leaves everything as it was |

## Left out

- DOM rendering and event wiring are not modelled: the topic and resource HTML of `renderTopics`, the markup of `renderCurrentWeek` and `renderWeekDisplay`, `initializeTimePicker`, `openTopicModal`, focus timers, and the click-outside handlers.
- `toggleTimePicker` is not modelled as its own member. It stops the click event and then calls `CloseTimePicker` or `OpenTimePicker`.
- `scrollToSelected` is not modelled: it is pixel layout arithmetic on element sizes.
- `localStorage` and JSON are abstract. `persisted` stands for what storage holds after `saveData`, and the constructor takes the loaded value as a parameter.
- Locale and ISO formatting are not modelled: `formatDate`, `formatDisplayDate`, `toLocaleDateString` and `isSameDay`. Days are day numbers.
  - So the model does not capture one real effect. `getStartOfWeek(new Date())` and the `setDate` calls after it keep the time of day at which the page was loaded, and `formatDate` writes that instant in UTC.
  - East of UTC, a card's key is the previous calendar date when the page was loaded early enough in the day; west of UTC, it is the next date when the page was loaded late enough.
  - So the key under which a day's topics are stored depends on the time of page load.
  - Daylight-saving shifts inside `setDate` are not modelled either.
- Clock readings (`Date.now()`, `toISOString()`) are parameters; `handleLinkSubmit` reads the clock twice, and its model takes both readings. So nothing is proved about their order, such as `editedAt` coming after `addedAt`, or about id collisions within one millisecond.
- LearningTracker.Tracker.HandleLinkSubmit: an edit index more than one past the end of the list is excluded by a precondition. In JavaScript it would leave holes in the array, which a `seq` cannot represent. The dialog only supplies indices of rendered resources.
- LearningTracker.Tracker.OpenLinkModal: the duration field is taken to be emptied by `linkForm.reset()`, since the page markup that gives its default value is not part of this model.
- The dialog's add/edit mode (`linkForm.dataset.mode`) and the resource index are passed in as `FormMode`, not kept as state.
- `parseInt` precision is not modelled: for digit runs too long for a double, JavaScript loses precision, while `Strings.ParseDecimal` is exact.
- The display order of topics (`Object.keys` order) is not modelled, because a Dafny `map` is unordered.
- The rest of the repository is not part of this model: the Next.js pages, the API routes, the navbar and the Prisma seed script.
