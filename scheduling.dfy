// The scheduled evaluation window (postprod-eval/src/llmevalgrader/common/utils.py):
// a run covers the week from the second-last Sunday to the last Saturday
// before the run day, and a start or end parameter of "NA" selects that
// default. The clock read by `datetime.today()` is the parameter `today`.
module Scheduling {
  import opened Tables
  import opened Dates

  /** time_range_for_scheduling: the last Saturday on or before `today` and
      the Sunday six days before it, both at today's time of day. */
  function TimeRangeForScheduling(today: DateTime): (r: (DateTime, DateTime))
    ensures Weekday(r.1.ordinal) == Saturday && 0 <= today.ordinal - r.1.ordinal <= 6
    ensures forall k :: r.1.ordinal < k <= today.ordinal ==> Weekday(k) != Saturday
    ensures r.0.ordinal == r.1.ordinal - 6 && Weekday(r.0.ordinal) == Sunday
    ensures r.0.micros == today.micros && r.1.micros == today.micros
  {
    var back := (Weekday(today.ordinal) + 2) % 7;
    var lastSaturday := AddDays(today, -back);
    WeekdayShift(today.ordinal, back);
    (AddDays(lastSaturday, -6), lastSaturday)
  }

  /** Going back `(weekday + 2) % 7` days lands on a Saturday, and no day
      after it up to `n` is one. */
  lemma WeekdayShift(n: int, back: int)
    requires back == (Weekday(n) + 2) % 7
    ensures Weekday(n - back) == Saturday && Weekday(n - back - 6) == Sunday
    ensures forall k :: n - back < k <= n ==> Weekday(k) != Saturday
  {
    var w := Weekday(n);
    assert n + 6 == (n + 6) / 7 * 7 + w;
    forall k | n - back < k <= n
      ensures Weekday(k) != Saturday
    {
      assert (k + 6) - (n + 6) + w == k - n + w;
    }
  }

  /** start_date_for_pipeline_run: "NA" (after stripping) is midnight of the
      second-last Sunday; anything else is parsed as "%Y/%m/%d %H:%M" as it
      stands. */
  function StartDateForPipelineRun(startDate: string, today: DateTime): (r: Result<DateTime>)
    ensures Strip(startDate) == "NA" ==>
      r == Ok(DateTime(TimeRangeForScheduling(today).0.ordinal, 0))
    ensures Strip(startDate) != "NA" ==> r == ParseDateTime(startDate)
  {
    var (secondLastSunday, _) := TimeRangeForScheduling(today);
    if Strip(startDate) == "NA" then Ok(DateTime(secondLastSunday.ordinal, 0)) else ParseDateTime(startDate)
  }

  /** end_date_for_pipeline_run: "NA" is the last instant of the last
      Saturday (`datetime.max.time()`); anything else is parsed. */
  function EndDateForPipelineRun(endDate: string, today: DateTime): (r: Result<DateTime>)
    ensures Strip(endDate) == "NA" ==>
      r == Ok(DateTime(TimeRangeForScheduling(today).1.ordinal, DayMicros - 1))
    ensures Strip(endDate) != "NA" ==> r == ParseDateTime(endDate)
  {
    var (_, lastSaturday) := TimeRangeForScheduling(today);
    if Strip(endDate) == "NA" then Ok(DateTime(lastSaturday.ordinal, DayMicros - 1)) else ParseDateTime(endDate)
  }

  /** With both defaults the window is the whole of the seven days from a
      Sunday to the following Saturday, ending at most six days before the
      run day: it contains an instant exactly when the instant's day is one
      of them. */
  lemma DefaultWindow(today: DateTime, x: DateTime)
    requires 0 <= x.micros < DayMicros
    ensures StartDateForPipelineRun("NA", today).Ok? && EndDateForPipelineRun("NA", today).Ok?
    ensures var s, e := StartDateForPipelineRun("NA", today).value, EndDateForPipelineRun("NA", today).value;
      Weekday(s.ordinal) == Sunday && Weekday(e.ordinal) == Saturday && e.ordinal - s.ordinal == 6 &&
      today.ordinal - 6 <= e.ordinal <= today.ordinal &&
      (NotAfter(s, x) && NotAfter(x, e) <==> s.ordinal <= x.ordinal <= e.ordinal)
  {
    StripNA();
  }

  lemma StripNA()
    ensures Strip("NA") == "NA"
  {
    var s := "NA";
    assert s[0] == 'N' && s[1] == 'A' && |s| == 2;
    assert !IsSpace(s[0]) && !IsSpace(s[|s| - 1]);
    assert TrimLeft(s) == s;
    assert TrimRight(s) == s;
  }

  /** Any start text other than "NA" that parses is taken as written: its
      leading and trailing whitespace is not stripped before parsing. */
  lemma UnstrippedStartRejected(today: DateTime)
    ensures StartDateForPipelineRun(" 2024/01/07 00:00", today).Err?
  {
    var s := " 2024/01/07 00:00";
    assert forall k :: 0 <= k < |s| ==> s[k] != 'N';
    StripKeepsMissing(s, 'N');
    assert Strip(s) != "NA";
    assert !IsDigit(s[0]);
    assert DigitRun(s, 0) == 0;
  }

  /** A character missing from a text is missing from the stripped text. */
  lemma StripKeepsMissing(s: string, c: char)
    requires forall k :: 0 <= k < |s| ==> s[k] != c
    ensures forall k :: 0 <= k < |Strip(s)| ==> Strip(s)[k] != c
  {
    var l := TrimLeft(s);
    forall k | 0 <= k < |Strip(s)|
      ensures Strip(s)[k] != c
    {
      assert Strip(s)[k] == l[k] == s[|s| - |l| + k];
    }
  }
}
