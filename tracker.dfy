/** The learning-tracker widget: its state (the displayed week, the selected
    day, the store and the time picker) and the handlers that change it. */
module LearningTracker {
  import opened Options
  import opened Strings
  import opened Calendar
  import opened Duration
  import opened Store

  /** How a handler ended: it changed the store and saved it, it ignored a blank
      title, the user declined its confirmation, or it threw a TypeError on a
      missing day or topic record before changing anything. */
  datatype Outcome = Saved | Ignored | Declined | Threw

  /** Whether the resource dialog adds a resource or edits the one at `index`. */
  datatype FormMode = Add | Edit(index: nat)

  /** The selected day has a record holding topic `id`. */
  predicate HasTopic(data: Data, selected: Option<int>, id: string) {
    selected.Some? && selected.value in data && id in data[selected.value]
  }

  /** The resources of topic `id` after the resource dialog is submitted in
      `mode` with the record `submitted`; an edit is stamped `editedAt`. */
  function SubmittedResources(resources: seq<Resource>, mode: FormMode, submitted: Resource, editedAt: string): (r: seq<Resource>)
    requires mode.Edit? ==> mode.index <= |resources|
    ensures mode.Add? ==> |r| == |resources| + 1 && r[..|resources|] == resources && r[|resources|] == submitted
    ensures mode.Edit? && mode.index < |resources| ==>
      |r| == |resources| && forall j :: 0 <= j < |r| && j != mode.index ==> r[j] == resources[j]
  {
    match mode
    case Add => resources + [submitted]
    case Edit(i) => EditedAt(resources, i, submitted, editedAt)
  }

  class Tracker {
    /** The Sunday that starts the week shown in the day strip. */
    var currentWeekStart: int
    var selectedDay: Option<int>
    var data: Data
    /** What local storage holds: None until the first save when nothing was stored. */
    var persisted: Option<Data>
    var pickerOpen: bool
    var selectedHour: Option<nat>
    var selectedMinute: Option<nat>
    /** The value of the resource dialog's duration field. */
    var timeText: string
    /** The text of the picker's display element. */
    var timeDisplay: string

    /** The day strip always starts on a Sunday. */
    ghost predicate Valid()
      reads this
    {
      DayOfWeek(currentWeekStart) == 0
    }

    /** Start-up on day `today` with what local storage holds: the week of
        `today`, no day selected, the stored store (empty when nothing was
        stored) and the picker closed with nothing selected. */
    constructor (today: int, stored: Option<Data>)
      ensures Valid()
      ensures currentWeekStart == StartOfWeek(today) && currentWeekStart <= today < currentWeekStart + 7
      ensures selectedDay == None
      ensures data == stored.GetOr(map[]) && persisted == stored
      ensures !pickerOpen && selectedHour == None && selectedMinute == None
      ensures timeText == ""
    {
      currentWeekStart := StartOfWeek(today);
      selectedDay := None;
      data := stored.GetOr(map[]);
      persisted := stored;
      pickerOpen := false;
      selectedHour := None;
      selectedMinute := None;
      timeText := "";
      timeDisplay := "Select time";
    }

    /** `selectDay`: any day may be selected, whether or not it is in the
        displayed week. */
    method SelectDay(day: int)
      modifies this`selectedDay
      ensures selectedDay == Some(day)
    {
      selectedDay := Some(day);
    }

    /** `changeWeek`: moves the strip by `direction` whole weeks; it still starts
        on a Sunday, and the selected day is kept. */
    method ChangeWeek(direction: int)
      requires Valid()
      modifies this`currentWeekStart
      ensures Valid()
      ensures currentWeekStart == old(currentWeekStart) + 7 * direction
      ensures StartOfWeek(currentWeekStart) == currentWeekStart
    {
      ShiftKeepsDayOfWeek(currentWeekStart, direction);
      currentWeekStart := currentWeekStart + direction * 7;
      StartOfWeekWithin(currentWeekStart, 0);
    }

    /** The topic counts of the seven day cards of `renderCurrentWeek`, Sunday first. */
    method WeekTopicCounts() returns (counts: seq<nat>)
      ensures |counts| == 7
      ensures forall i :: 0 <= i < 7 ==> counts[i] == TopicCount(data, currentWeekStart + i)
    {
      counts := [];
      var i := 0;
      while i < 7
        invariant 0 <= i <= 7 && |counts| == i
        invariant forall j :: 0 <= j < i ==> counts[j] == TopicCount(data, currentWeekStart + j)
      {
        var day := currentWeekStart + i;
        var dayData := if day in data then data[day] else map[];
        counts := counts + [|dayData|];
        i := i + 1;
      }
    }

    /** `handleTopicSubmit` with the dialog's title text, the id taken from the
        clock and the creation time. A title that trims to nothing is ignored;
        otherwise the selected day gets a topic with the trimmed title and no
        resources, as `AddTopic` says, and the dialog and the picker close. */
    method HandleTopicSubmit(titleInput: string, id: string, createdAt: string) returns (outcome: Outcome)
      requires selectedDay.Some?
      modifies this`data, this`persisted, this`pickerOpen
      ensures AllSpace(titleInput) ==> outcome == Ignored && data == old(data) && persisted == old(persisted)
      ensures !AllSpace(titleInput) ==> outcome == Saved && persisted == Some(data)
      ensures !AllSpace(titleInput) ==> data == WithTopic(old(data), selectedDay.value, id, Topic(Trim(titleInput), [], createdAt))
      ensures NoEmptyDays(old(data)) ==> NoEmptyDays(data)
      ensures pickerOpen == (old(pickerOpen) && AllSpace(titleInput))
    {
      var title := Trim(titleInput);
      if title == "" {
        return Ignored;
      }
      AddTopic(selectedDay.value, id, Topic(title, [], createdAt));
      // closing the dialogs closes the picker too
      CloseTimePicker();
      outcome := Saved;
    }

    /** The store step of `handleTopicSubmit`: the day's record is created when
        it has none, gets `topic` under `id`, and the store is saved. */
    method AddTopic(day: int, id: string, topic: Topic)
      modifies this`data, this`persisted
      ensures data == WithTopic(old(data), day, id, topic) && persisted == Some(data)
      ensures NoEmptyDays(old(data)) ==> NoEmptyDays(data)
    {
      // the day's record, or a new empty one
      var record := DayOf(data, day);
      TopicAdded(record, id, topic);
      DayReplaced(data, day, record[id := topic]);
      data := data[day := record[id := topic]];
      persisted := Some(data);
    }

    /** `deleteTopic` with the answer to its confirmation. On confirmation the
        topic is removed from the selected day, whose record goes too once it
        has no topics left, and the store is saved. */
    method DeleteTopic(id: string, confirmed: bool) returns (outcome: Outcome)
      modifies this`data, this`persisted
      ensures !confirmed ==> outcome == Declined
      ensures confirmed && (selectedDay.None? || selectedDay.value !in old(data)) ==> outcome == Threw
      ensures outcome == Saved <==> confirmed && selectedDay.Some? && selectedDay.value in old(data)
      ensures outcome == Saved ==> data == WithoutTopic(old(data), selectedDay.value, id) && persisted == Some(data)
      ensures outcome != Saved ==> data == old(data) && persisted == old(persisted)
      ensures NoEmptyDays(old(data)) ==> NoEmptyDays(data)
    {
      if !confirmed {
        return Declined;
      }
      if selectedDay.None? || selectedDay.value !in data {
        // `delete state.data[day][id]` on a missing record
        return Threw;
      }
      var day := selectedDay.value;
      WithoutTopicEffect(data, day, id);
      var rest := data[day] - {id};
      if |rest| == 0 {
        data := data - {day};
      } else {
        data := data[day := rest];
      }
      assert data == WithoutTopic(old(data), day, id);
      persisted := Some(data);
      outcome := Saved;
    }

    /** `deleteResource` with the answer to its confirmation: on confirmation the
        topic's resources lose the one at `index` as `splice(index, 1)` does, and
        the store is saved. */
    method DeleteResource(id: string, index: int, confirmed: bool) returns (outcome: Outcome)
      modifies this`data, this`persisted
      ensures !confirmed ==> outcome == Declined
      ensures confirmed && !HasTopic(old(data), selectedDay, id) ==> outcome == Threw
      ensures outcome == Saved <==> confirmed && HasTopic(old(data), selectedDay, id)
      ensures outcome == Saved ==> persisted == Some(data)
      ensures outcome == Saved ==> data == WithResources(old(data), selectedDay.value, id,
                                                         SpliceOne(old(data)[selectedDay.value][id].resources, index))
      ensures outcome != Saved ==> data == old(data) && persisted == old(persisted)
      ensures NoEmptyDays(old(data)) ==> NoEmptyDays(data)
    {
      if !confirmed {
        return Declined;
      }
      if !HasTopic(data, selectedDay, id) {
        return Threw;
      }
      var day := selectedDay.value;
      var topic := data[day][id];
      data := data[day := data[day][id := topic.(resources := SpliceOne(topic.resources, index))]];
      persisted := Some(data);
      outcome := Saved;
    }

    /** `handleLinkSubmit` with the dialog's fields, its mode and its two
        readings of the clock: `addedAt` when the record is built and
        `editedAt` when an edit is stamped. A title that trims to nothing is ignored; otherwise the record
        built from the fields, the duration field included, is stored as
        `SaveResource` says, and once it is saved the dialog and the picker close. */
    method HandleLinkSubmit(form: LinkForm, mode: FormMode, addedAt: string, editedAt: string) returns (outcome: Outcome)
      requires mode.Edit? && HasTopic(data, selectedDay, form.topicId) ==>
                 mode.index <= |data[selectedDay.value][form.topicId].resources|
      modifies this`data, this`persisted, this`pickerOpen
      ensures AllSpace(form.title) ==> outcome == Ignored && data == old(data) && persisted == old(persisted)
      ensures AllSpace(form.title) ==> pickerOpen == old(pickerOpen)
      ensures !AllSpace(form.title) ==> Saves(form.topicId, mode, FromForm(form, old(timeText), addedAt), editedAt, outcome)
    {
      if Trim(form.title) == "" {
        return Ignored;
      }
      outcome := SaveResource(form.topicId, mode, FromForm(form, timeText, addedAt), editedAt);
    }

    /** What storing `resource` for topic `id` of the selected day does: when
        that topic has no record the handler throws and nothing changes;
        otherwise the record is appended to the topic's resources, or in edit
        mode put at the edited position, keeping the original's `addedAt` and
        stamping `editedAt`, the store is saved, and the dialog and the picker close. */
    twostate predicate Saves(id: string, mode: FormMode, resource: Resource, editedAt: string, outcome: Outcome)
      reads this`data, this`persisted, this`selectedDay, this`pickerOpen
    {
      && (outcome == Threw <==> !HasTopic(old(data), selectedDay, id))
      && (outcome != Threw ==> outcome == Saved)
      && (outcome == Saved ==>
            persisted == Some(data)
            && (mode.Edit? ==> mode.index <= |old(data)[selectedDay.value][id].resources|)
            && data == WithResources(old(data), selectedDay.value, id,
                                     SubmittedResources(old(data)[selectedDay.value][id].resources, mode, resource, editedAt)))
      && (outcome == Saved ==> !pickerOpen)
      && (outcome == Threw ==> data == old(data) && persisted == old(persisted) && pickerOpen == old(pickerOpen))
      && (NoEmptyDays(old(data)) ==> NoEmptyDays(data))
    }

    /** `handleLinkSubmit` from the look-up of the topic on, for a non-blank record. */
    method SaveResource(id: string, mode: FormMode, resource: Resource, editedAt: string) returns (outcome: Outcome)
      requires mode.Edit? && HasTopic(data, selectedDay, id) ==>
                 mode.index <= |data[selectedDay.value][id].resources|
      modifies this`data, this`persisted, this`pickerOpen
      ensures Saves(id, mode, resource, editedAt, outcome)
    {
      if !HasTopic(data, selectedDay, id) {
        // `state.data[day][topicId].resources` on a missing record
        return Threw;
      }
      var day := selectedDay.value;
      var topic := data[day][id];
      var resources := topic.resources;
      match mode {
        case Add =>
          resources := resources + [resource];
        case Edit(i) =>
          resources := EditedAt(resources, i, resource, editedAt);
      }
      data := data[day := data[day][id := topic.(resources := resources)]];
      assert data == WithResources(old(data), day, id, resources);
      persisted := Some(data);
      // closing the dialogs closes the picker too
      CloseTimePicker();
      outcome := Saved;
    }

    /** `openLinkModal`: the dialog opens in add mode with its fields cleared,
        and the picker with nothing selected. */
    method OpenLinkModal()
      modifies this`selectedHour, this`selectedMinute, this`timeText, this`timeDisplay
      ensures selectedHour == None && selectedMinute == None
      ensures timeText == "" && timeDisplay == "Select time"
    {
      timeText := "";
      timeDisplay := "Select time";
      selectedHour := None;
      selectedMinute := None;
    }

    /** `openEditResourceModal`: the dialog opens on the resource at `index` of
        topic `id`, whose duration fills the duration field and the display
        ("Select time" when it has none); the picker selection is kept. It
        throws, changing nothing, when there is no such resource. */
    method OpenEditResourceModal(id: string, index: nat) returns (shown: bool)
      modifies this`timeText, this`timeDisplay
      ensures shown <==> HasTopic(data, selectedDay, id) && index < |data[selectedDay.value][id].resources|
      ensures shown ==> var time := data[selectedDay.value][id].resources[index].time;
        timeText == time && timeDisplay == (if time != "" then time else "Select time")
      ensures !shown ==> timeText == old(timeText) && timeDisplay == old(timeDisplay)
    {
      if !HasTopic(data, selectedDay, id) || index >= |data[selectedDay.value][id].resources| {
        // `resource.title` on a missing record
        return false;
      }
      var resource := data[selectedDay.value][id].resources[index];
      timeText := resource.time;
      timeDisplay := if resource.time != "" then resource.time else "Select time";
      shown := true;
    }

    /** `updateTimeDisplay`: with an hour selected, the duration field and the
        display both show the label of the selection; otherwise nothing changes. */
    method UpdateTimeDisplay()
      modifies this`timeText, this`timeDisplay
      ensures selectedHour.Some? ==> timeText == Label(selectedHour.value, selectedMinute) && timeDisplay == timeText
      ensures selectedHour.None? ==> timeText == old(timeText) && timeDisplay == old(timeDisplay)
    {
      if selectedHour.Some? {
        var text := Label(selectedHour.value, selectedMinute);
        timeDisplay := text;
        timeText := text;
      }
    }

    /** `selectHour`, which refreshes the display. */
    method SelectHour(hour: nat)
      modifies this`selectedHour, this`timeText, this`timeDisplay
      ensures selectedHour == Some(hour)
      ensures timeText == Label(hour, selectedMinute) && timeDisplay == timeText
    {
      selectedHour := Some(hour);
      UpdateTimeDisplay();
    }

    /** `selectMinute`, which refreshes the display once an hour is selected. */
    method SelectMinute(minute: nat)
      modifies this`selectedMinute, this`timeText, this`timeDisplay
      ensures selectedMinute == Some(minute)
      ensures selectedHour.Some? ==> timeText == Label(selectedHour.value, Some(minute)) && timeDisplay == timeText
      ensures selectedHour.None? ==> timeText == old(timeText) && timeDisplay == old(timeDisplay)
    {
      selectedMinute := Some(minute);
      UpdateTimeDisplay();
    }

    /** `applyTimeSelection`: with an hour selected, writes the same label as
        `updateTimeDisplay` and closes the picker; otherwise does nothing, and
        the picker stays open. */
    method ApplyTimeSelection()
      modifies this`timeText, this`timeDisplay, this`pickerOpen
      ensures selectedHour.Some? ==> timeText == Label(selectedHour.value, selectedMinute) && timeDisplay == timeText
      ensures selectedHour.Some? ==> !pickerOpen
      ensures selectedHour.None? ==> timeText == old(timeText) && timeDisplay == old(timeDisplay) && pickerOpen == old(pickerOpen)
    {
      if selectedHour.Some? {
        var text := Label(selectedHour.value, selectedMinute);
        timeText := text;
        timeDisplay := text;
        CloseTimePicker();
      }
    }

    /** `closeTimePicker`. */
    method CloseTimePicker()
      modifies this`pickerOpen
      ensures !pickerOpen
    {
      pickerOpen := false;
    }

    /** `openTimePicker`: opens the picker and, when the duration field holds
        text that one of the two patterns reads, selects what it reads (minutes
        rounded down to a multiple of 5), which rewrites the field as the label
        of that selection; any other text leaves the selection and the field
        as they were. */
    method OpenTimePicker()
      modifies this`pickerOpen, this`selectedHour, this`selectedMinute, this`timeText, this`timeDisplay
      ensures pickerOpen
      ensures ParseBack(old(timeText)).None? ==>
        selectedHour == old(selectedHour) && selectedMinute == old(selectedMinute)
        && timeText == old(timeText) && timeDisplay == old(timeDisplay)
      ensures ParseBack(old(timeText)).Some? ==>
        var chosen := ParseBack(old(timeText)).value;
        selectedHour == Some(chosen.hour) && selectedMinute == Some(chosen.minute)
        && timeText == Label(chosen.hour, Some(chosen.minute)) && timeDisplay == timeText
    {
      pickerOpen := true;
      var text := timeText;
      if text != "" {
        match MatchMinutesOnly(text) {
          case Some(minutes) =>
            SelectHour(0);
            SelectMinute(RoundDown5(minutes));
            return;
          case None =>
        }
        match MatchHoursMinutes(text) {
          case Some(numbers) =>
            SelectHour(numbers.0);
            SelectMinute(RoundDown5(numbers.1));
          case None =>
        }
      }
    }
  }

  /** Going forward a week and back again returns to the same week, and
      touches nothing else: the selected day, the store and the picker are as
      they were. */
  method ForwardThenBack(t: Tracker)
    requires t.Valid()
    modifies t`currentWeekStart
    ensures t.Valid() && t.currentWeekStart == old(t.currentWeekStart)
    ensures t.selectedDay == old(t.selectedDay) && t.data == old(t.data) && t.persisted == old(t.persisted)
    ensures t.pickerOpen == old(t.pickerOpen) && t.selectedHour == old(t.selectedHour)
    ensures t.selectedMinute == old(t.selectedMinute)
    ensures t.timeText == old(t.timeText) && t.timeDisplay == old(t.timeDisplay)
  {
    t.ChangeWeek(1);
    t.ChangeWeek(-1);
  }
}
