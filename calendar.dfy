/** Calendar days as integer day numbers: day 0 is 1 January 1970, a Thursday,
    and consecutive days have consecutive numbers (what `setDate(getDate() + k)`
    does to a local date). */
module Calendar {

  /** `Date.prototype.getDay`: 0 for Sunday up to 6 for Saturday. */
  function DayOfWeek(day: int): (r: nat)
    ensures r < 7
  {
    (day + 4) % 7
  }

  /** The Sunday that starts the week containing `day` (`getStartOfWeek`): it is
      a Sunday, not after `day`, and less than a week before it. */
  function StartOfWeek(day: int): (r: int)
    ensures DayOfWeek(r) == 0
    ensures r <= day < r + 7
  {
    day - DayOfWeek(day)
  }

  /** Moving by whole weeks keeps the day of the week. */
  lemma {:induction false} ShiftKeepsDayOfWeek(day: int, weeks: int)
    ensures DayOfWeek(day + 7 * weeks) == DayOfWeek(day)
    decreases if weeks < 0 then -weeks else weeks
  {
    if weeks > 0 {
      ShiftKeepsDayOfWeek(day, weeks - 1);
      assert day + 7 * weeks == (day + 7 * (weeks - 1)) + 7;
    } else if weeks < 0 {
      ShiftKeepsDayOfWeek(day, weeks + 1);
      assert day + 7 * weeks == (day + 7 * (weeks + 1)) - 7;
    }
  }

  /** Every day of the week starting on Sunday `start` has `start` as the start
      of its week, so a week start moved by whole weeks is still one. */
  lemma StartOfWeekWithin(start: int, offset: int)
    requires DayOfWeek(start) == 0 && 0 <= offset < 7
    ensures StartOfWeek(start + offset) == start
  {
    assert DayOfWeek(start + offset) == offset;
  }
}
