/**
  The proleptic Gregorian calendar as Python's `datetime` uses it, on day
  numbers: a date is its ordinal (`date.toordinal()`), so 0001-01-01 is day 1,
  and `weekday()` is `(ordinal + 6) % 7` with Monday = 0. Differences of dates
  in days are differences of ordinals.
 */
module Civil {
  import opened Wrappers

  /** Days before 1 January of year `y` (CPython's `_days_before_year`). */
  function DaysBeforeYear(y: int): int
  {
    var p := y - 1;
    p * 365 + p / 4 - p / 100 + p / 400
  }

  /** The ordinal of 1 January of year `y`: `datetime(y, 1, 1)`. */
  function JanFirst(y: int): int
  {
    DaysBeforeYear(y) + 1
  }

  predicate IsLeap(y: int)
  {
    y % 4 == 0 && (y % 100 != 0 || y % 400 == 0)
  }

  function DaysInYear(y: int): int
  {
    if IsLeap(y) then 366 else 365
  }

  /** Python's `weekday()`: Monday is 0, Sunday is 6. */
  function Weekday(d: int): (w: int)
    ensures 0 <= w < 7
  {
    (d + 6) % 7
  }

  /** Stepping the dividend by one raises the quotient exactly when it lands on a multiple. */
  lemma DivStep(p: int)
    ensures (p + 1) / 4 - p / 4 == if (p + 1) % 4 == 0 then 1 else 0
    ensures (p + 1) / 100 - p / 100 == if (p + 1) % 100 == 0 then 1 else 0
    ensures (p + 1) / 400 - p / 400 == if (p + 1) % 400 == 0 then 1 else 0
  {
  }

  /** A multiple of 400 is a multiple of 100, and a multiple of 100 a multiple of 4. */
  lemma Multiples(y: int)
    ensures y % 400 == 0 ==> y % 100 == 0
    ensures y % 100 == 0 ==> y % 4 == 0
  {
    if y % 400 == 0 {
      var q := y / 400;
      assert y == 400 * q;
      assert y == 100 * (4 * q) + 0;
    }
    if y % 100 == 0 {
      var q := y / 100;
      assert y == 100 * q;
      assert y == 4 * (25 * q) + 0;
    }
  }

  /** Consecutive New Year's days are a year's length apart. */
  lemma YearLength(y: int)
    ensures JanFirst(y + 1) == JanFirst(y) + DaysInYear(y)
  {
    DivStep(y - 1);
    Multiples(y);
  }

  /** New Year's day moves forward by at least 365 days a year. */
  lemma {:induction false} JanFirstGrows(a: int, b: int)
    requires a <= b
    ensures JanFirst(a) + 365 * (b - a) <= JanFirst(b)
    decreases b - a
  {
    if a < b {
      JanFirstGrows(a, b - 1);
      YearLength(b - 1);
    }
  }

  /** Search downwards for a year that starts on or before `d`. */
  function SearchDown(d: int, y: int): (r: int)
    ensures r <= y && JanFirst(r) <= d
    decreases JanFirst(y) - d
  {
    if JanFirst(y) <= d then y
    else
      YearLength(y - 1);
      SearchDown(d, y - 1)
  }

  /** Search upwards from a year that starts on or before `d` for the year holding `d`. */
  function SearchUp(d: int, y: int): (r: int)
    requires JanFirst(y) <= d
    ensures JanFirst(r) <= d < JanFirst(r + 1)
    decreases d - JanFirst(y)
  {
    YearLength(y);
    if d < JanFirst(y + 1) then y else SearchUp(d, y + 1)
  }

  /** `date.year`: the year whose span holds day `d`. */
  function YearOf(d: int): (y: int)
    ensures JanFirst(y) <= d < JanFirst(y + 1)
  {
    SearchUp(d, SearchDown(d, (d - 1) * 400 / 146097 + 1))
  }

  /** A day lies in exactly one year: the year is determined by the span. */
  lemma YearOfUnique(d: int, y: int)
    requires JanFirst(y) <= d < JanFirst(y + 1)
    ensures YearOf(d) == y
  {
    SpanUnique(d, y, YearOf(d));
  }

  /** Two years whose spans both hold `d` are the same year. */
  lemma SpanUnique(d: int, y: int, z: int)
    requires JanFirst(y) <= d < JanFirst(y + 1) && JanFirst(z) <= d < JanFirst(z + 1)
    ensures z == y
  {
    if z < y {
      JanFirstGrows(z + 1, y);
    } else if z > y {
      JanFirstGrows(y + 1, z);
    }
  }

  /** Days in the months of year `y` before month `m`. */
  function DaysBeforeMonth(y: int, m: int): int
    requires 1 <= m <= 12
  {
    var base := [0, 31, 59, 90, 120, 151, 181, 212, 243, 273, 304, 334][m - 1];
    if m > 2 && IsLeap(y) then base + 1 else base
  }

  function DaysInMonth(y: int, m: int): int
    requires 1 <= m <= 12
  {
    if m == 12 then 31 else DaysBeforeMonth(y, m + 1) - DaysBeforeMonth(y, m)
  }

  /** What `datetime(y, m, d)` accepts (the 1..9999 year range aside). */
  predicate ValidDate(y: int, m: int, d: int)
  {
    1 <= m <= 12 && 1 <= d <= DaysInMonth(y, m)
  }

  /** The ordinal of `datetime(y, m, d)`. */
  function FromCivil(y: int, m: int, d: int): int
    requires 1 <= m <= 12
  {
    JanFirst(y) + DaysBeforeMonth(y, m) + d - 1
  }

  datatype CivilDate = CivilDate(year: int, month: int, day: int)

  /** The last month of year `y` starting on or before day-of-year `doy`, searching down from `m`. */
  function MonthFrom(y: int, doy: int, m: int): (r: int)
    requires 1 <= m <= 12 && 0 <= doy
    ensures 1 <= r <= m && DaysBeforeMonth(y, r) <= doy
    ensures r < m ==> doy < DaysBeforeMonth(y, r + 1)
  {
    if m == 1 || DaysBeforeMonth(y, m) <= doy then m else MonthFrom(y, doy, m - 1)
  }

  /** Year, month and day of an ordinal, as `date.fromordinal(n)` gives them. */
  function ToCivil(n: int): (c: CivilDate)
    ensures ValidDate(c.year, c.month, c.day)
    ensures FromCivil(c.year, c.month, c.day) == n
  {
    var y := YearOf(n);
    YearLength(y);
    var doy := n - JanFirst(y);
    var m := MonthFrom(y, doy, 12);
    CivilDate(y, m, doy - DaysBeforeMonth(y, m) + 1)
  }

  /** Months partition a year: a valid date lies in its own month's span only. */
  lemma MonthUnique(y: int, m: int, doy: int)
    requires 1 <= m <= 12 && DaysBeforeMonth(y, m) <= doy < DaysBeforeMonth(y, m) + DaysInMonth(y, m)
    ensures MonthFrom(y, doy, 12) == m
  {
  }

  /** The months before `m` and month `m` itself fit in the year. */
  lemma MonthInYear(y: int, m: int)
    requires 1 <= m <= 12
    ensures DaysBeforeMonth(y, m) + DaysInMonth(y, m) <= DaysInYear(y)
  {
  }

  /** `date(y, m, d).toordinal()` followed by `fromordinal` gives `(y, m, d)` back. */
  lemma ToFromCivil(n: int, y: int, m: int, d: int)
    requires ValidDate(y, m, d) && n == FromCivil(y, m, d)
    ensures ToCivil(n) == CivilDate(y, m, d)
  {
    YearLength(y);
    MonthInYear(y, m);
    YearOfUnique(n, y);
    var doy := n - JanFirst(y);
    MonthUnique(y, m, doy);
    ToCivilParts(n, y, doy, m);
  }

  /** `ToCivil` once the year and the month of the ordinal are known. */
  lemma ToCivilParts(n: int, y: int, doy: int, m: int)
    requires YearOf(n) == y && doy == n - JanFirst(y) && 0 <= doy && 1 <= m <= 12 && MonthFrom(y, doy, 12) == m
    ensures ToCivil(n) == CivilDate(y, m, doy - DaysBeforeMonth(y, m) + 1)
  {
  }

  /** `date.replace(year=y)`: same month and day in year `y`; `None` for 29 February of a non-leap `y`. */
  function ReplaceYear(n: int, y: int): (r: Option<int>)
    ensures r.Some? <==> ValidDate(y, ToCivil(n).month, ToCivil(n).day)
  {
    var c := ToCivil(n);
    if ValidDate(y, c.month, c.day) then Some(FromCivil(y, c.month, c.day)) else None
  }

  /** Replacing the year of a January date moves it onto the same day of January of that year. */
  lemma ReplaceYearJanuary(n: int, x: int, k: int, y: int)
    requires 1 <= k <= 31 && n == JanFirst(x) + k - 1
    ensures ReplaceYear(n, y) == Some(JanFirst(y) + k - 1)
  {
    ToFromCivil(n, x, 1, k);
  }
}
