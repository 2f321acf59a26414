/** The duration field of a resource: the label the time picker writes for an
    hour and a minute selection, and the way an existing label is read back into
    a selection when the picker opens. */
module Duration {
  import opened Options
  import opened Strings

  /** An hour and minute selection of the picker. */
  datatype Selection = Selection(hour: nat, minute: nat)

  function Plural(n: nat): string {
    if n != 1 then "s" else ""
  }

  /** The text written for hour `hour` and minute `minute` (absent when no minute
      was picked): "0 mins" when there is nothing to show, minutes alone when the
      hour is zero, otherwise hours followed by any minutes; a unit takes "s"
      unless its number is exactly 1. */
  function Label(hour: nat, minute: Option<nat>): string {
    if hour == 0 then
      if minute.Some? && minute.value > 0 then Show(minute.value) + " min" + Plural(minute.value)
      else "0 mins"
    else
      Show(hour) + " hour" + Plural(hour) + MinuteSuffix(minute)
  }

  /** The minutes that follow the hours in a label, when there are any. */
  function MinuteSuffix(minute: Option<nat>): string {
    if minute.Some? && minute.value > 0 then " " + Show(minute.value) + " min" + Plural(minute.value) else ""
  }

  /** `Math.floor(m / 5) * 5`: the largest multiple of 5 not above `m`. */
  function RoundDown5(m: nat): (r: nat)
    ensures r % 5 == 0
    ensures r <= m < r + 5
  {
    m / 5 * 5
  }

  predicate IsMinuteUnit(u: string) {
    EqualsIgnoringCase(u, "minutes") || EqualsIgnoringCase(u, "minute")
    || EqualsIgnoringCase(u, "mins") || EqualsIgnoringCase(u, "min")
  }

  /** The number captured by `^(\d+)\s*(?:minutes?|mins?)$` with the `i` flag, if
      the whole text matches: digits, optional white space, then a minute unit
      and nothing else. */
  function MatchMinutesOnly(text: string): Option<nat> {
    var n := DigitRun(text);
    if n == 0 then None
    else
      var rest := text[n..];
      if IsMinuteUnit(rest[SpaceRun(rest)..]) then Some(ParseDecimal(text[..n])) else None
  }

  /** The index of the first decimal digit of `s`, or `|s|` when it has none. */
  function FirstDigit(s: string): (p: nat)
    ensures p <= |s|
    ensures p < |s| ==> IsDigit(s[p])
    ensures forall i :: 0 <= i < p ==> !IsDigit(s[i])
  {
    if s == [] || IsDigit(s[0]) then 0 else 1 + FirstDigit(s[1..])
  }

  /** How much of `s` the optional group `(?:hours?|hrs?)` consumes: the first
      alternative is tried first and each `s?` is greedy. */
  function HourUnitLength(s: string): (n: nat)
    ensures n <= |s|
  {
    if StartsWithIgnoringCase(s, "hour") then
      if StartsWithIgnoringCase(s[4..], "s") then 5 else 4
    else if StartsWithIgnoringCase(s, "hr") then
      if StartsWithIgnoringCase(s[2..], "s") then 3 else 2
    else 0
  }

  /** What the optional group `(?:\s+(\d+)\s*(?:minutes?|mins?)?)` captures at the
      front of `s`, 0 when it does not take part: it needs at least one
      white-space character and then a digit. */
  function MinuteGroup(s: string): nat {
    var gap := SpaceRun(s);
    var m := DigitRun(s[gap..]);
    if gap > 0 && m > 0 then ParseDecimal(s[gap..][..m]) else 0
  }

  /** The two numbers of the first match of
      `(\d+)\s*(?:hours?|hrs?)?(?:\s+(\d+)\s*(?:minutes?|mins?)?)?` with the `i` flag,
      the second one 0 when its group did not take part. The match starts at the
      first digit; everything after the first group is optional, so every greedy
      part takes the most it can and never has to give any back. */
  function MatchHoursMinutes(text: string): Option<(nat, nat)> {
    var p := FirstDigit(text);
    if p == |text| then None
    else
      var t := text[p..];
      var n := DigitRun(t);
      var afterHours := t[n..];
      var unitAt := afterHours[SpaceRun(afterHours)..];
      Some((ParseDecimal(t[..n]), MinuteGroup(unitAt[HourUnitLength(unitAt)..])))
  }

  /** The selection the picker takes from the text already in the duration field
      when it opens, or None when it keeps its selection: empty text is skipped,
      the minutes-only form sets hour 0, and either form rounds minutes down to a
      multiple of 5. */
  function ParseBack(text: string): (r: Option<Selection>)
    ensures r.Some? ==> r.value.minute % 5 == 0
    ensures MatchMinutesOnly(text).Some? ==> r == Some(Selection(0, RoundDown5(MatchMinutesOnly(text).value)))
    ensures MatchMinutesOnly(text).None? && MatchHoursMinutes(text).Some? ==>
      r == Some(Selection(MatchHoursMinutes(text).value.0, RoundDown5(MatchHoursMinutes(text).value.1)))
    ensures r.None? <==> MatchMinutesOnly(text).None? && MatchHoursMinutes(text).None?
  {
    if text == [] then None
    else
      match MatchMinutesOnly(text)
      case Some(m) => Some(Selection(0, RoundDown5(m)))
      case None =>
        match MatchHoursMinutes(text)
        case Some(hm) => Some(Selection(hm.0, RoundDown5(hm.1)))
        case None => None
  }

  /** The minute a label shows, 0 when it shows none. */
  function ShownMinute(minute: Option<nat>): nat {
    if minute.Some? then minute.value else 0
  }

  /** Opening the picker on the label it wrote restores that selection, with the
      minutes rounded down to the picker's 5-minute grid. */
  lemma ParseBackLabel(hour: nat, minute: Option<nat>)
    ensures ParseBack(Label(hour, minute)) == Some(Selection(hour, RoundDown5(ShownMinute(minute))))
  {
    LabelRead(hour, minute);
  }

  /** With no hours the label is the minutes alone, "0 mins" included. */
  lemma ZeroHourLabel(minute: Option<nat>)
    ensures var v := if minute.Some? && minute.value > 0 then minute.value else 0;
      Label(0, minute) == Show(v) + (" min" + Plural(v)) && v == ShownMinute(minute)
  {
    assert Show(0) == "0";
  }

  /** A minutes-only label is read back as its minutes. */
  lemma MinutesOnlyLabel(v: nat)
    ensures MatchMinutesOnly(Show(v) + (" min" + Plural(v))) == Some(v)
  {
    assert " min" + Plural(v) == [' '] + ("min" + Plural(v));
    MinutesOnlyAccepts(Show(v), [' '], "min" + Plural(v));
    ParseShow(v);
  }

  /** A whole text of digits, white space and a minute unit (any of its four
      spellings, letters in any case) is read as that many minutes alone,
      leading zeros included. */
  lemma MinutesOnlyAccepts(d: string, gap: string, unit: string)
    requires d != [] && AllDigits(d)
    requires AllSpace(gap)
    requires IsMinuteUnit(unit)
    ensures MatchMinutesOnly(d + (gap + unit)) == Some(ParseDecimal(d))
  {
    assert LowerAscii(unit[0]) == 'm';
    var rest := gap + unit;
    var text := d + rest;
    assert rest[0] == if gap != [] then gap[0] else unit[0];
    DigitRunOver(d, rest);
    assert text[..|d|] == d && text[|d|..] == rest;
    SpaceRunOver(gap, unit);
    assert rest[|gap|..] == unit;
  }

  /** Conversely, the minutes-only pattern matches only a whole text of that
      shape, and reads the digits. */
  lemma MinutesOnlyShape(text: string)
    requires MatchMinutesOnly(text).Some?
    ensures exists d: string, gap: string, unit: string ::
      d != [] && AllDigits(d) && AllSpace(gap) && IsMinuteUnit(unit) &&
      text == d + (gap + unit) && MatchMinutesOnly(text) == Some(ParseDecimal(d))
  {
    var n := DigitRun(text);
    var rest := text[n..];
    var k := SpaceRun(rest);
    var d, gap, unit := text[..n], rest[..k], rest[k..];
    assert rest == gap + unit;
    assert text == d + (gap + unit);
  }

  /** Two selections write the same label exactly when they have the same
      hour and show the same minute: the label loses nothing but the
      difference between no minute and minute 0. */
  lemma SameLabel(hour: nat, minute: Option<nat>, hour': nat, minute': Option<nat>)
    ensures Label(hour, minute) == Label(hour', minute') <==>
      hour == hour' && ShownMinute(minute) == ShownMinute(minute')
  {
    if Label(hour, minute) == Label(hour', minute') {
      LabelRead(hour, minute);
      LabelRead(hour', minute');
    }
  }

  /** What the two patterns read from a label: its minutes alone when it has
      no hours, its hours and shown minute otherwise. */
  lemma LabelRead(hour: nat, minute: Option<nat>)
    ensures hour == 0 ==> MatchMinutesOnly(Label(hour, minute)) == Some(ShownMinute(minute))
    ensures hour > 0 ==> MatchMinutesOnly(Label(hour, minute)).None?
    ensures hour > 0 ==> MatchHoursMinutes(Label(hour, minute)) == Some((hour, ShownMinute(minute)))
  {
    if hour == 0 {
      var v := if minute.Some? && minute.value > 0 then minute.value else 0;
      ZeroHourLabel(minute);
      MinutesOnlyLabel(v);
    } else {
      HoursLabel(hour, minute);
    }
  }

  /** The general pattern is not anchored: it matches exactly the texts that
      hold a decimal digit somewhere, and reads its hours from the first one. */
  lemma HoursMinutesNeedsDigit(text: string)
    ensures MatchHoursMinutes(text).Some? <==> exists i :: 0 <= i < |text| && IsDigit(text[i])
    ensures MatchHoursMinutes(text).Some? ==>
      var p := FirstDigit(text);
      0 < DigitRun(text[p..]) && MatchHoursMinutes(text).value.0 == ParseDecimal(text[p..][..DigitRun(text[p..])])
  {
    var p := FirstDigit(text);
    if p < |text| {
      assert IsDigit(text[p..][0]);
    }
  }

  lemma HoursLabel(hour: nat, minute: Option<nat>)
    requires hour > 0
    ensures MatchMinutesOnly(Label(hour, minute)).None?
    ensures MatchHoursMinutes(Label(hour, minute)) == Some((hour, ShownMinute(minute)))
  {
    var unit := "hour" + Plural(hour) + MinuteSuffix(minute);
    HoursLabelShape(hour, minute);
    HoursLabelSplit(Show(hour), unit);
    ParseShow(hour);
    HourUnitSkipped(hour, MinuteSuffix(minute));
    MinuteSuffixGroup(minute);
  }

  lemma HoursLabelShape(hour: nat, minute: Option<nat>)
    requires hour > 0
    ensures Label(hour, minute) == Show(hour) + ([' '] + ("hour" + Plural(hour) + MinuteSuffix(minute)))
  {
  }

  /** How both patterns see "<digits> <unit>" when the unit starts with an h. */
  lemma HoursLabelSplit(h: string, unit: string)
    requires h != [] && AllDigits(h)
    requires unit != [] && unit[0] == 'h'
    ensures MatchMinutesOnly(h + ([' '] + unit)).None?
    ensures MatchHoursMinutes(h + ([' '] + unit))
         == Some((ParseDecimal(h), MinuteGroup(unit[HourUnitLength(unit)..])))
  {
    var text := h + ([' '] + unit);
    DigitRunOver(h, [' '] + unit);
    assert text[..|h|] == h && text[|h|..] == [' '] + unit;
    SpaceRunOver([' '], unit);
    assert ([' '] + unit)[1..] == unit;
    NotMinuteUnit(unit);
    HoursAtFront(text, h, [' '] + unit);
  }

  lemma NotMinuteUnit(u: string)
    requires u != [] && u[0] == 'h'
    ensures !IsMinuteUnit(u)
  {
    assert LowerAscii(u[0]) == 'h';
  }

  lemma HoursAtFront(text: string, h: string, rest: string)
    requires text == h + rest && h != [] && AllDigits(h)
    requires DigitRun(text) == |h|
    ensures var unitAt := rest[SpaceRun(rest)..];
      MatchHoursMinutes(text) == Some((ParseDecimal(h), MinuteGroup(unitAt[HourUnitLength(unitAt)..])))
  {
    assert IsDigit(text[0]);
    assert FirstDigit(text) == 0;
    assert text[0..] == text;
    assert text[..|h|] == h && text[|h|..] == rest;
  }

  lemma HourUnitSkipped(hour: nat, suffix: string)
    requires suffix != [] ==> suffix[0] == ' '
    ensures var unit := "hour" + Plural(hour) + suffix;
      unit[HourUnitLength(unit)..] == suffix
  {
    var unit := "hour" + Plural(hour) + suffix;
    assert unit[4..] == Plural(hour) + suffix;
    if hour != 1 {
      assert unit[4..][0] == 's';
      assert unit[5..] == suffix;
    } else {
      assert unit[4..] == suffix;
    }
  }

  lemma MinuteSuffixGroup(minute: Option<nat>)
    ensures MinuteGroup(MinuteSuffix(minute)) == ShownMinute(minute)
  {
    if minute.Some? && minute.value > 0 {
      var ms := Show(minute.value);
      var after := " min" + Plural(minute.value);
      var tail := MinuteSuffix(minute);
      assert tail == [' '] + (ms + after);
      SpaceRunOver([' '], ms + after);
      assert tail[1..] == ms + after;
      DigitRunOver(ms, after);
      assert (ms + after)[..|ms|] == ms;
      ParseShow(minute.value);
    }
  }

  /** Every selection the picker offers (minutes on the 5-minute grid) survives
      being written as a label and read back. */
  lemma PickerSelectionRoundTrip(hour: nat, minute: nat)
    requires minute % 5 == 0
    ensures ParseBack(Label(hour, Some(minute))) == Some(Selection(hour, minute))
  {
    ParseBackLabel(hour, Some(minute));
    assert minute / 5 * 5 == minute;
  }
}
