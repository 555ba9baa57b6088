/**
  The epidemiological calendar: where an epi year starts under the configured
  policy, which epi year and epi week a date falls in, and where a given epi
  week starts. Dates are day ordinals (see module Civil).
 */
module EpiWeek {
  import opened Wrappers
  import opened Civil

  /**
    The `epi_week` setting of the country configuration, one of:
    the string "international"; a string "day:<day>" (Monday = 0, as `weekday()`);
    a dict from epi year to the datetime its week 1 starts on; any other string.
   */
  datatype Config =
    | International
    | DayOfWeek(day: int)
    | Custom(starts: map<int, int>)
    | Other

  /** An epi year and an epi week number within it. */
  datatype Week = Week(year: int, week: int)

  /** Shifting a day by `j` shifts its weekday by `j` modulo 7. */
  lemma WeekdayShift(d: int, j: int)
    requires 0 <= j
    ensures Weekday(d + j) == (Weekday(d) + j) % 7
  {
    var q := (d + 6) / 7;
    assert d + 6 == 7 * q + Weekday(d);
    assert d + j + 6 == 7 * q + (Weekday(d) + j);
  }

  /**
    The start of epi year `year` under "day:<day>": 1 January moved forward to
    the next `day`. For a weekday 0..6 it lies in the first seven days of
    January and has that weekday.
   */
  function WeekdayStartDate(year: int, day: int): (s: int)
    ensures 0 <= day < 7 ==> JanFirst(year) <= s <= JanFirst(year) + 6 && Weekday(s) == day
  {
    var first := JanFirst(year);
    var adjustment := day - Weekday(first);
    var shift := if adjustment < 0 then 7 + adjustment else adjustment;
    if shift < 0 then first + shift
    else
      WeekdayShift(first, shift);
      first + shift
  }

  /** Whole weeks do not change the weekday. */
  lemma WeekdayWeeks(d: int, k: int)
    ensures Weekday(d + 7 * k) == Weekday(d)
  {
    var q := (d + 6) / 7;
    assert d + 6 == 7 * q + Weekday(d);
    assert d + 7 * k + 6 == 7 * (q + k) + Weekday(d);
  }

  /**
    For a weekday 0..6 the epi year starts in the first seven days of January,
    on that weekday, and no earlier day of January has that weekday.
   */
  lemma WeekdayStartInFirstWeek(year: int, day: int)
    requires 0 <= day < 7
    ensures var s := WeekdayStartDate(year, day);
      && JanFirst(year) <= s <= JanFirst(year) + 6
      && Weekday(s) == day
      && forall d :: JanFirst(year) <= d < s ==> Weekday(d) != day
  {
    var first := JanFirst(year);
    var s := WeekdayStartDate(year, day);
    WeekdayShift(first, s - first);
    forall d | first <= d < s ensures Weekday(d) != day {
      WeekdayShift(first, d - first);
    }
  }

  /** Concrete starts of epi year 2016 for "day:0" … "day:6": 4, 5, 6, 7, 1, 2 and 3 January. */
  lemma WeekdayStarts2016()
    ensures WeekdayStartDate(2016, 0) == FromCivil(2016, 1, 4)
    ensures WeekdayStartDate(2016, 1) == FromCivil(2016, 1, 5)
    ensures WeekdayStartDate(2016, 2) == FromCivil(2016, 1, 6)
    ensures WeekdayStartDate(2016, 3) == FromCivil(2016, 1, 7)
    ensures WeekdayStartDate(2016, 4) == FromCivil(2016, 1, 1)
    ensures WeekdayStartDate(2016, 5) == FromCivil(2016, 1, 2)
    ensures WeekdayStartDate(2016, 6) == FromCivil(2016, 1, 3)
  {
    assert JanFirst(2016) == 735964;
  }

  /** Every non-empty set of integers has a greatest element. */
  lemma {:induction false} MaxExists(s: set<int>)
    requires s != {}
    ensures exists m :: m in s && forall x :: x in s ==> x <= m
    decreases |s|
  {
    assert (forall y :: y !in s) ==> s == {};
    var x :| x in s;
    if s != {x} {
      MaxExists(s - {x});
      var m :| m in s - {x} && forall y :: y in s - {x} ==> y <= m;
      var top := if x > m then x else m;
      forall y | y in s ensures y <= top {
        if y != x {
          assert y in s - {x};
        }
      }
      assert top in s;
    }
  }

  function Max(s: set<int>): (m: int)
    requires s != {}
    ensures m in s && forall x :: x in s ==> x <= m
  {
    MaxExists(s);
    var m :| m in s && forall x :: x in s ==> x <= m;
    m
  }

  /**
    The scan over `reversed(sorted(starts))` that returns the first start
    strictly before `date`: the greatest such start, or `None` when there is none.
   */
  function LatestBefore(starts: set<int>, date: int): (r: Option<int>)
    ensures r.None? <==> forall x :: x in starts ==> date <= x
    ensures r.Some? ==> r.value in starts && r.value < date
    ensures r.Some? ==> forall x :: x in starts && x < date ==> x <= r.value
    decreases starts
  {
    if starts == {} then None
    else
      var m := Max(starts);
      if date > m then Some(m)
      else
        assert forall x :: x in starts ==> x == m || x in starts - {m};
        LatestBefore(starts - {m}, date)
  }

  /**
    The scan over `reversed(sorted(config.items()))` that returns the first
    year whose start is strictly before `date`: the greatest such year.
   */
  function LatestYearBefore(starts: map<int, int>, years: set<int>, date: int): (r: Option<int>)
    requires years <= starts.Keys
    ensures r.None? <==> forall y :: y in years ==> date <= starts[y]
    ensures r.Some? ==> r.value in years && starts[r.value] < date
    ensures r.Some? ==> forall y :: y in years && starts[y] < date ==> y <= r.value
    decreases years
  {
    if years == {} then None
    else
      var y := Max(years);
      if date > starts[y] then Some(y) else LatestYearBefore(starts, years - {y}, date)
  }

  /**
    `epi_year_start_date(date, config)`: 1 January of the date's year, or under
    "day:<day>" the first such weekday in January; under a dict, the latest
    configured start strictly before the date, `None` when there is none.
   */
  function YearStartDate(date: int, cfg: Config): (r: Option<int>)
    ensures cfg.International? || cfg.Other? ==> r == Some(JanFirst(YearOf(date))) && r.value <= date
    ensures cfg.DayOfWeek? && 0 <= cfg.day < 7 ==>
      && r.Some?
      && JanFirst(YearOf(date)) <= r.value <= JanFirst(YearOf(date)) + 6
      && Weekday(r.value) == cfg.day
    ensures cfg.Custom? ==> (r.None? <==> forall x :: x in cfg.starts.Values ==> date <= x)
    ensures cfg.Custom? && r.Some? ==>
      && r.value in cfg.starts.Values && r.value < date
      && forall x :: x in cfg.starts.Values && x < date ==> x <= r.value
  {
    match cfg
    case International => Some(JanFirst(YearOf(date)))
    case DayOfWeek(day) => Some(WeekdayStartDate(YearOf(date), day))
    case Custom(starts) => LatestBefore(starts.Values, date)
    case Other => Some(JanFirst(YearOf(date)))
  }

  /** `epi_year_start_date_by_year(year, config)`: under a dict, a lookup that fails on a missing year. */
  function YearStartDateByYear(year: int, cfg: Config): (r: Option<int>)
    ensures cfg.Custom? ==> (r.Some? <==> year in cfg.starts)
    ensures cfg.Custom? && year in cfg.starts ==> r == Some(cfg.starts[year])
    ensures !cfg.Custom? ==> r.Some?
  {
    match cfg
    case International => Some(JanFirst(year))
    case DayOfWeek(day) => Some(WeekdayStartDate(year, day))
    case Custom(starts) => if year in starts then Some(starts[year]) else None
    case Other => Some(JanFirst(year))
  }

  /**
    `epi_year_by_date(date, config)`: under a dict, the largest configured year
    whose start is strictly before the date; `None` stands for the `ValueError`
    raised when there is none. String settings always give a year.
   */
  function EpiYearByDate(date: int, cfg: Config): (r: Option<int>)
    ensures !cfg.Custom? ==> r.Some?
    ensures cfg.Custom? ==> (r.None? <==> forall y :: y in cfg.starts ==> date <= cfg.starts[y])
    ensures cfg.Custom? && r.Some? ==> r.value in cfg.starts && cfg.starts[r.value] < date
    ensures cfg.Custom? && r.Some? ==> forall y :: y in cfg.starts && cfg.starts[y] < date ==> y <= r.value
  {
    match cfg
    case Custom(starts) => LatestYearBefore(starts, starts.Keys, date)
    case DayOfWeek(day) =>
      var year := YearOf(date);
      Some(if date < WeekdayStartDate(year, day) then year - 1 else year)
    case _ => Some(YearOf(date))
  }

  /**
    `epi_week_for_date(date)`: the epi year and week; a date before the start of
    its epi year counts as week 1. `None` when the configuration cannot place the date.
   */
  function EpiWeekForDate(date: int, cfg: Config): (r: Option<Week>)
    ensures r.Some? ==> r.value.week >= 1
  {
    var start := YearStartDate(date, cfg);
    var year := EpiYearByDate(date, cfg);
    if year.None? || start.None? then None
    else if date < start.value then Some(Week(year.value, 1))
    else Some(Week(year.value, (date - start.value) / 7 + 1))
  }

  /**
    `epi_week_start_date(year, week)`: the start of epi year `year` plus
    `week - 1` weeks. Under a dict it exists only for a configured year; week 1
    starts with the epi year, and under "day:<day>" every week starts on that weekday.
   */
  function EpiWeekStartDate(year: int, week: int, cfg: Config): (r: Option<int>)
    ensures cfg.Custom? ==> (r.Some? <==> year in cfg.starts)
    ensures !cfg.Custom? ==> r.Some?
    ensures week == 1 ==> r == YearStartDateByYear(year, cfg)
    ensures cfg.DayOfWeek? && 0 <= cfg.day < 7 ==> r.Some? && Weekday(r.value) == cfg.day
  {
    match YearStartDateByYear(year, cfg)
    case None => None
    case Some(start) =>
      WeekdayWeeks(start, week - 1);
      Some(start + 7 * (week - 1))
  }

  /** Under "international" the epi year of 1 January starts that day, and it is week 1 of that year. */
  lemma InternationalNewYear(y: int)
    ensures YearStartDate(JanFirst(y), International) == Some(JanFirst(y))
    ensures EpiWeekForDate(JanFirst(y), International) == Some(Week(y, 1))
  {
    YearLength(y);
    YearOfUnique(JanFirst(y), y);
  }

  /**
    Under "day:<day>" the epi year of a date is the year whose start is on or
    before the date while the next year's start is after it.
   */
  lemma WeekdayEpiYear(date: int, day: int)
    requires 0 <= day < 7
    ensures EpiYearByDate(date, DayOfWeek(day)).Some?
    ensures var y := EpiYearByDate(date, DayOfWeek(day)).value;
      WeekdayStartDate(y, day) <= date < WeekdayStartDate(y + 1, day)
  {
    var year := YearOf(date);
    var s := WeekdayStartDate(year, day);
    if date < s {
      var p := WeekdayStartDate(year - 1, day);
      JanFirstGrows(year - 1, year);
      assert EpiYearByDate(date, DayOfWeek(day)) == Some(year - 1);
    } else {
      var n := WeekdayStartDate(year + 1, day);
      assert EpiYearByDate(date, DayOfWeek(day)) == Some(year);
    }
  }

  /** Under a string policy other than "day:<day>" the epi year is the calendar year. */
  lemma CalendarEpiYear(date: int, cfg: Config)
    requires cfg.International? || cfg.Other?
    ensures EpiYearByDate(date, cfg) == Some(YearOf(date))
    ensures var y := YearOf(date); JanFirst(y) <= date < JanFirst(y + 1)
  {
  }

  /** Under a dict the start and the year are found, or not, for the same dates: those after some configured start. */
  lemma CustomDomain(date: int, starts: map<int, int>)
    ensures YearStartDate(date, Custom(starts)).Some? <==> EpiYearByDate(date, Custom(starts)).Some?
    ensures EpiWeekForDate(date, Custom(starts)).None? <==> forall y :: y in starts ==> date <= starts[y]
  {
    if EpiYearByDate(date, Custom(starts)).Some? {
      var y := EpiYearByDate(date, Custom(starts)).value;
      assert starts[y] in starts.Values;
    }
    if YearStartDate(date, Custom(starts)).Some? {
      var s := YearStartDate(date, Custom(starts)).value;
      var y :| y in starts && starts[y] == s;
    }
  }

  /**
    Round trip under a dict whose starts increase with the year: a date that
    gets a week lies after its epi year's configured start, and the start of
    that week is on or before the date while the next week starts after it.
   */
  lemma CustomWeekRoundTrip(date: int, starts: map<int, int>)
    requires forall y1, y2 :: y1 in starts && y2 in starts && y1 < y2 ==> starts[y1] < starts[y2]
    requires EpiWeekForDate(date, Custom(starts)).Some?
    ensures var w := EpiWeekForDate(date, Custom(starts)).value;
      && w.year in starts && starts[w.year] < date
      && EpiWeekStartDate(w.year, w.week, Custom(starts)).Some?
      && EpiWeekStartDate(w.year, w.week, Custom(starts)).value <= date
      && date < EpiWeekStartDate(w.year, w.week, Custom(starts)).value + 7
  {
    var cfg := Custom(starts);
    var y := EpiYearByDate(date, cfg).value;
    var s := YearStartDate(date, cfg).value;
    var ys :| ys in starts && starts[ys] == s;
    assert starts[y] in starts.Values;
    assert starts[y] <= s;
    assert ys <= y;
    assert starts[y] == s;
    var w := EpiWeekForDate(date, cfg).value;
    assert w == Week(y, (date - s) / 7 + 1);
    assert EpiWeekStartDate(y, w.week, cfg) == Some(s + 7 * ((date - s) / 7));
  }

  /** The dict of the unit test: {2016: 2016-01-02, 2017: 2016-12-30}. */
  function TestStarts(): map<int, int>
  {
    map[2016 := FromCivil(2016, 1, 2), 2017 := FromCivil(2016, 12, 30)]
  }

  /** The dict cases of the unit test: each date gets the start of its expected epi year. */
  lemma CustomStartExamples()
    ensures YearStartDate(FromCivil(2016, 3, 5), Custom(TestStarts())) == Some(TestStarts()[2016])
    ensures YearStartDate(FromCivil(2016, 12, 31), Custom(TestStarts())) == Some(TestStarts()[2017])
    ensures YearStartDate(FromCivil(2017, 4, 24), Custom(TestStarts())) == Some(TestStarts()[2017])
  {
    var starts := TestStarts();
    assert starts.Values == {FromCivil(2016, 1, 2), FromCivil(2016, 12, 30)} by {
      assert starts[2016] in starts.Values && starts[2017] in starts.Values;
    }
    assert JanFirst(2016) == 735964;
    assert JanFirst(2017) == 736330;
  }

  /** The weekday cases of the unit test: a June 2016 date under "day:0" … "day:6". */
  lemma WeekdayStartExamples()
    ensures YearStartDate(FromCivil(2016, 6, 14), DayOfWeek(0)) == Some(FromCivil(2016, 1, 4))
    ensures YearStartDate(FromCivil(2016, 6, 14), DayOfWeek(1)) == Some(FromCivil(2016, 1, 5))
    ensures YearStartDate(FromCivil(2016, 6, 14), DayOfWeek(2)) == Some(FromCivil(2016, 1, 6))
    ensures YearStartDate(FromCivil(2016, 6, 14), DayOfWeek(3)) == Some(FromCivil(2016, 1, 7))
    ensures YearStartDate(FromCivil(2016, 6, 14), DayOfWeek(4)) == Some(FromCivil(2016, 1, 1))
    ensures YearStartDate(FromCivil(2016, 6, 14), DayOfWeek(5)) == Some(FromCivil(2016, 1, 2))
    ensures YearStartDate(FromCivil(2016, 6, 14), DayOfWeek(6)) == Some(FromCivil(2016, 1, 3))
  {
    June2016Start(0); June2016Start(1); June2016Start(2); June2016Start(3);
    June2016Start(4); June2016Start(5); June2016Start(6);
    WeekdayStarts2016();
  }

  /** A June 2016 date falls in the calendar year 2016, so its start under "day:<day>" is that of 2016. */
  lemma June2016Start(day: int)
    ensures YearStartDate(FromCivil(2016, 6, 14), DayOfWeek(day)) == Some(WeekdayStartDate(2016, day))
  {
    assert JanFirst(2016) == 735964 && JanFirst(2017) == 736330;
    YearOfUnique(FromCivil(2016, 6, 14), 2016);
  }

  /** The "international" case of the unit test. */
  lemma InternationalStartExample()
    ensures YearStartDate(FromCivil(2015, 5, 25), International) == Some(FromCivil(2015, 1, 1))
  {
    assert JanFirst(2015) == 735599 && JanFirst(2016) == 735964;
    YearOfUnique(FromCivil(2015, 5, 25), 2015);
  }

  /**
    Round trip: under "international" or "day:<day>", for a date on or after
    its year's start, the computed week starts on or before the date and the
    next week starts after it.
   */
  lemma WeekRoundTrip(date: int, cfg: Config)
    requires cfg.International? || (cfg.DayOfWeek? && 0 <= cfg.day < 7)
    requires YearStartDate(date, cfg).Some? && YearStartDate(date, cfg).value <= date
    ensures EpiWeekForDate(date, cfg).Some?
    ensures var w := EpiWeekForDate(date, cfg).value;
      && EpiWeekStartDate(w.year, w.week, cfg).Some?
      && EpiWeekStartDate(w.year, w.week, cfg).value <= date < EpiWeekStartDate(w.year, w.week, cfg).value + 7
  {
    var s := YearStartDate(date, cfg).value;
    var w := EpiWeekForDate(date, cfg).value;
    assert w.year == YearOf(date);
    assert YearStartDateByYear(w.year, cfg) == Some(s);
    assert s + 7 * ((date - s) / 7) <= date < s + 7 * ((date - s) / 7) + 7;
  }

  /**
    As written, under "day:<day>" a date before its year's start gets week 1 of
    the previous epi year, whose start lies almost a year before the date.
   */
  lemma WeekdayEarlyDays(date: int, day: int)
    requires 0 <= day < 7
    requires date < WeekdayStartDate(YearOf(date), day)
    ensures EpiWeekForDate(date, DayOfWeek(day)) == Some(Week(YearOf(date) - 1, 1))
    ensures EpiWeekStartDate(YearOf(date) - 1, 1, DayOfWeek(day)).value + 7 < date + 7 - 350
  {
    var y := YearOf(date);
    var cfg := DayOfWeek(day);
    var s := WeekdayStartDate(y, day);
    var p := WeekdayStartDate(y - 1, day);
    JanFirstGrows(y - 1, y);
    assert EpiYearByDate(date, cfg) == Some(y - 1);
    assert YearStartDate(date, cfg) == Some(s);
    assert EpiWeekStartDate(y - 1, 1, cfg) == Some(p);
  }
}
