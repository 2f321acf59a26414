/** Worked examples of the labels the time picker writes for particular
    selections. */
module Scenarios {
  import opened Options
  import opened Strings
  import opened Duration

  lemma HalfHourLabel()
    ensures Label(0, Some(30)) == "30 mins"
  {
    assert Show(30) == "30";
  }

  lemma OneHourLabel()
    ensures Label(1, Some(0)) == "1 hour"
  {
    assert Show(1) == "1";
  }

  lemma HoursAndMinutesLabel()
    ensures Label(2, Some(5)) == "2 hours 5 mins"
  {
    assert Show(2) == "2" && Show(5) == "5";
  }

  lemma NothingLabel()
    ensures Label(0, Some(0)) == "0 mins" && Label(0, None) == "0 mins"
  {
  }

  lemma SingularLabel()
    ensures Label(1, Some(1)) == "1 hour 1 min"
  {
    assert Show(1) == "1";
  }
}
