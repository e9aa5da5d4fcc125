/**
 * The two worked examples in the docstring of `get_occurrences`, on instants
 * counted in seconds since 1970-01-01 00:00.
 */
module Scenarios {
  import opened Wrappers
  import opened Recurrence
  import opened Occurrences
  import opened Events

  const Day := 86400
  const Hour := 3600
  /** 2008-01-01 00:00. */
  const Jan1 := 1199145600
  const Jan2 := Jan1 + Day
  const Jan24 := Jan1 + 23 * Day
  const Feb1 := Jan1 + 31 * Day
  const Feb2 := Feb1 + Day
  const Mar1 := Feb1 + 29 * Day
  const Mar2 := Mar1 + Day

  function IsLeapYear(year: int): bool
  {
    year % 4 == 0 && (year % 100 != 0 || year % 400 == 0)
  }

  /** Days in `month` (0 = January) of `year`. */
  function DaysInMonth(year: int, month: int): int
  {
    if month == 1 then (if IsLeapYear(year) then 29 else 28)
    else if month == 3 || month == 5 || month == 8 || month == 10 then 30
    else 31
  }

  /** The gap after the `i`-th monthly instant from the first of January 2008. */
  function MonthGap(i: nat): Gap
  {
    DaysInMonth(2008 + i / 12, i % 12) * Day
  }

  /** `Rule(frequency = "MONTHLY")` with no further parameters. */
  function Monthly(): Rule
  {
    Rule(0, MonthGap, None)
  }

  /** The occurrence `_create_occurrence` makes for the span `[s, t]` of event 1. */
  function Virtual(s: Instant, t: Instant): Occurrence
  {
    Occurrence(1, s, t, false, s, t)
  }

  /** The monthly rule from 2008-01-01 steps to the first of February, March and April. */
  lemma MonthlyInstants()
    ensures At(Jan1, Monthly(), 0) == Jan1
    ensures At(Jan1, Monthly(), 1) == Feb1
    ensures At(Jan1, Monthly(), 2) == Mar1
    ensures At(Jan1, Monthly(), 3) == Mar1 + 31 * Day
  {
    assert MonthGap(0) == 31 * Day;
    assert MonthGap(1) == 29 * Day;
    assert MonthGap(2) == 31 * Day;
  }

  /** Between 2008-01-23 and 2008-03-02 the monthly rule has two instants. */
  lemma MonthlyBetween()
    ensures Between(Jan1, Monthly(), Jan24 - Day, Mar2) == [Feb1, Mar1]
  {
    var r := Monthly();
    var a, b := Jan24 - Day, Mar2;
    MonthlyInstants();
    assert BetweenFrom(Jan1, r, 3, a, b) == [];
    assert BetweenFrom(Jan1, r, 2, a, b) == [Mar1];
    assert BetweenFrom(Jan1, r, 1, a, b) == [Feb1, Mar1];
  }

  /**
   * A monthly event on 2008-01-01, queried from 2008-01-24 to 2008-03-02,
   * occurs on the first of February and the first of March, a day each.
   */
  lemma MonthlyEventInWindow()
    ensures var e := Event(1, Jan1, Jan2, Some(Monthly()), None);
            OccurrenceList(e, Jan24, Mar2) == [Virtual(Feb1, Feb2), Virtual(Mar1, Mar2)] &&
            Merge(OccurrenceList(e, Jan24, Mar2), Index([]), Jan24, Mar2) == [Virtual(Feb1, Feb2), Virtual(Mar1, Mar2)]
  {
    var e := Event(1, Jan1, Jan2, Some(Monthly()), None);
    MonthlyBetween();
    assert RuleStarts(e, Jan24, Mar2) == [Feb1, Mar1];
    var os := OccurrenceList(e, Jan24, Mar2);
    assert os == [Virtual(Feb1, Feb2), Virtual(Mar1, Mar2)];
    MergeNothingPersisted(os, Jan24, Mar2);
  }

  /** The same window misses a one-off event from 08:00 to 09:00 on 2008-01-01. */
  lemma OneOffEventOutsideWindow()
    ensures OccurrenceList(Event(1, Jan1 + 8 * Hour, Jan1 + 9 * Hour, None, None), Jan24, Mar2) == []
  {
  }
}
