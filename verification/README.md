# meerkat_abacus core, modelled in Dafny

meerkat_abacus turns raw form submissions into aggregated public-health data.
Its codes are *aggregation variables*. A variable is defined by four texts:
- a `method`: test types such as `match`, `sub_match`, `between`,
  `not_null`, `value` or `calc`, joined by `and`/`or`;
- a `condition`;
- a `db_column`;
- a `calculation`.

The `Variable` class compiles a definition once and then tests every data row
against it. Dates are bucketed into *epi weeks* according to the country's
`epi_week` setting: `"international"`, `"day:<weekday>"`, or a dict of custom
year starts. A utility package holds:
- an older epi-week routine;
- the in-place rewrite of a row field into a list;
- the filtering of Hermes topics in development mode;
- the topic list of an alert;
- loops over the location table.

The project models these files:

| file | flavour | Dafny |
|---|---|---|
| `meerkat_abacus/codes/variable.py` | mixed | module `Variable` (datatypes, loops as methods proved against functions), module `VariableProps` (lemmas) |
| `meerkat_abacus/util/epi_week.py` | pure | module `EpiWeek` |
| `meerkat_abacus/util/__init__.py` | mixed | module `Util` (class `MutableRow` for the in-place `field_to_list`, methods for the loops) |

Supporting modules carry the Python behaviour the core relies on:
- `Wrappers`: `Option` and `Result`.
- `Text`: `str.split`, `str.strip`, substring tests, `str(int)`, and the part of
  `float(str)` the proofs need.
- `Py`: cells, truth value, identity tests, `float()` and exceptions.
- `Civil`: proleptic Gregorian day ordinals, as `date.toordinal()` and
  `weekday()` compute them.
- `Arith`: the calculation that `eval` runs, as an expression tree.
- `Logic`: the `&`/`|` expression a multi-test variable compiles to.

Every exception the source raises or lets through is an `Err` value:
- `NameError`, `KeyError`, `TypeError`, `ValueError`, `IndexError`,
  `AttributeError`, `SyntaxError`, `ZeroDivisionError`.

The one exception to this is module `EpiWeek`, which returns `Option`: `None`
stands for the `KeyError` of a dict without the year
(`epi_year_start_date_by_year`) and for the `ValueError` of a dict with no
start before the date (`epi_year_by_date`). Through them, `epi_week_for_date`
and `epi_week_start_date` give `None` in the same cases. `epi_year_start_date`
returns `None` itself when no dict start is before the date, as the source does.

A database query becomes the sequence of rows it returns. The country
configuration becomes a parameter.

Where the code and its documentation disagree, the model follows the code:
- `test_sub_match` (`variable.py:192-195`) checks that an element of the
  condition occurs *inside* the cell, not the other way round
  (`VariableProps.SubMatchDirection`).
- `test_not_null` and `test_value` compare by identity (`is not 0`). An integer
  `0` is blank; a float `0.0` is not (`VariableProps.NotNullExamples`).
- The utility `epi_week_start_date` says `day:0` is Sunday. Its code uses
  `weekday()`, where Monday is 0.
- The docstring of `create_topic_list` lists all topics of the reason first,
  then all `allDis` topics. `itertools.product(prefix, locs, reason)` varies the
  reason fastest, so the code's list alternates reason and `allDis` per location
  (`Util.TopicListOrder`).
- The two epi-week routines disagree on early-January dates before the epi-year
  start:
  - `epi_week.py` returns week 1 of the previous epi year
    (`EpiWeek.WeekdayEarlyDays`);
  - the utility `epi_week` returns week 52 or 53 of the previous year
    (`Util.UtilEpiWeekEarlyDays`).

  Both are modelled as written (`Util.UtilEpiWeekExample` and
  `Util.EpiWeekExample` show 2 January 2016 under `day:0`).

## Model

| member | source | states |
|---|---|---|
| Variable.Scan | meerkat_abacus/codes/variable.py:38-54 | The token loop succeeds iff every even token is a test type and every odd token a connective. On success it keeps the test types and connectives in order. Otherwise the error is the exception of the first bad token. |
| Variable.ScanTokens | meerkat_abacus/codes/variable.py:38-54 | The loop over `method.split(" ")` returns exactly what `Scan` specifies. |
| Variable.ScanFirstBad | meerkat_abacus/codes/variable.py:43-44 | The first invalid token decides the exception, whatever follows it. |
| Variable.ScanExtend | meerkat_abacus/codes/variable.py:39-54 | One more valid token appends its test type (even position) or its connective (odd position) to the scan. |
| Variable.ConditionOf | meerkat_abacus/codes/variable.py:58-63 | Never empty, and no part holds a comma. With a comma, part `k` is comma-separated piece `k` stripped (so every part is stripped and there is one per piece); without one the clause is kept verbatim. |
| Variable.ReadConditions | meerkat_abacus/codes/variable.py:57-63 | The condition loop yields one condition list per `;`-clause, in order. |
| Variable.ConditionsStep | meerkat_abacus/codes/variable.py:58-63 | One more clause appends its condition list. |
| Variable.ReadColumns | meerkat_abacus/codes/variable.py:64-70 | The column loop yields one column clause per `;`-entry, in order. |
| Variable.CalcSlots | meerkat_abacus/codes/variable.py:124-133 | The calculation-slot loop keeps the number of column clauses and gives one slot per part handled. Its only failure is `IndexError`. |
| Variable.ReadCalcSlots | meerkat_abacus/codes/variable.py:124-133 | The loop over `calculation.split(";")` returns exactly `CalcSlots` of all parts. |
| Variable.CalcSlotsErrorSticks | meerkat_abacus/codes/variable.py:126-133 | Once a part raises, the loop's result is that exception. |
| Variable.PickShape | meerkat_abacus/codes/variable.py:81-135 | The choice between `value`, `calc`, single test and `test_many` (with its errors) is `Shape`. |
| Variable.ShapeWellFormed | meerkat_abacus/codes/variable.py:123-135 | A multi-test rule's boolean expression only refers to tests the rule has. |
| Variable.Compile | meerkat_abacus/codes/variable.py:23-135 | The constructor builds exactly `Build(definition)` (rule or exception), and a built rule is well formed. |
| Variable.NotNullResult | meerkat_abacus/codes/variable.py:200-205 | A list of columns raises `TypeError`. Otherwise the result is true iff the column is present and its cell is not `""`, `None` or the integer 0. |
| Variable.BetweenResult | meerkat_abacus/codes/variable.py:220-238 | The result is false whenever some column is missing or falsy (the guard at lines 232-236). |
| Variable.ValueResult | meerkat_abacus/codes/variable.py:207-218 | A missing or blank cell gives 0; a non-blank cell is returned unchanged unless the calculation is `"date"`. Its partner is `VariableProps.ValueMatchesNotNull`, which ties the blank set to `not_null`. |
| VariableProps.ValueMatchesNotNull | meerkat_abacus/codes/variable.py:200-218 | `value` and `not_null` share the blank set: for any calculation but `"date"`, `value` gives 0 iff `not_null` fails, and the cell itself when it holds. A list of columns is a `TypeError` for both. |
| Variable.ToDate | meerkat_abacus/codes/variable.py:269-303 | A non-text value, a text no format reads, and any text under "international" pass through unchanged. Under a dict a read date raises `TypeError`. Under `day:<w>` a read date becomes its seconds since 1970-01-01 minus 86400 times `EpochOffset`. |
| Variable.PrepareKeeps | meerkat_abacus/codes/variable.py:250-259 | The copy gains exactly the referenced columns and keeps every other cell. A missing or falsy column ends as 0. A truthy non-text cell is kept. |
| Variable.PrepareRow | meerkat_abacus/codes/variable.py:250-259 | The loop over the copy computes `Prepare`. |
| Variable.PrepareErrorSticks | meerkat_abacus/codes/variable.py:252-259 | An exception in one column ends the loop with that exception. |
| Variable.TestCalc | meerkat_abacus/codes/variable.py:240-266 | `test_calc` prepares a copy, evaluates the calculation, and maps division by zero to 0 (`CalcResult`). |
| Variable.Collect | meerkat_abacus/codes/variable.py:152-171 | The first `n` test results are each slot's result, in order. Otherwise the error is that of the first slot that raises, all earlier slots having succeeded. |
| Variable.SlotResult | meerkat_abacus/codes/variable.py:153-170 | A `value` or `calc` slot raises `KeyError`, a slot without its column or condition `IndexError`. Otherwise slot `i` gives what the single test of its type on `columns[i]` and `conditions[i]` gives (`TestResult`). |
| Variable.CollectStep | meerkat_abacus/codes/variable.py:152-171 | One more slot appends its result or ends with its exception. |
| Variable.CollectErrorSticks | meerkat_abacus/codes/variable.py:152-171 | Once a slot raises, `test_many` raises that exception. |
| Variable.TestMany | meerkat_abacus/codes/variable.py:149-172 | `test_many` runs every slot in order, then evaluates the compiled expression on the results (`ManyResult`). |
| Variable.Test | meerkat_abacus/codes/variable.py:137-147 | `test(row)` dispatches to the evaluator the constructor chose (`Evaluate`). |
| VariableProps.ConnectiveIsNoTest | meerkat_abacus/codes/variable.py:40-50 | No connective word is also a test type. |
| VariableProps.BuildShapes | meerkat_abacus/codes/variable.py:71-135 | A built variable has an odd number of tokens and one condition clause per test. It is a `value` rule iff the method is `value`, a `calc` rule iff it is `calc`, a single test iff it is one other word, and `test_many` iff it has several tokens. |
| VariableProps.BuildManyShape | meerkat_abacus/codes/variable.py:81-135 | A multi-test variable keeps the scanned test types (never `value` or `calc`) and the parse of its connectives. |
| VariableProps.TokensKinds | meerkat_abacus/codes/variable.py:38-54 | The token list is `["value"]`, `["calc"]`, one other test or several tests, exactly as its scanned types are. |
| VariableProps.ShapeKinds | meerkat_abacus/codes/variable.py:81-135 | The shape chosen follows the scanned test types alone. |
| VariableProps.BuildFirstBadToken | meerkat_abacus/codes/variable.py:38-54 | The first invalid method token decides the constructor's exception. |
| VariableProps.BuildUnfold | meerkat_abacus/codes/variable.py:57-135 | With its three splits known and the counts matching, the constructor is the shape choice. |
| VariableProps.BuildTrailingConnective | meerkat_abacus/codes/variable.py:55-56 | A method ending in a connective fails to compile (`SyntaxError`). |
| VariableProps.BuildClauseCount | meerkat_abacus/codes/variable.py:71-73 | A condition with the wrong number of `;`-clauses raises `TypeError`. |
| VariableProps.KindOfName | meerkat_abacus/codes/variable.py:40-42 | Each test type is recognised from exactly one word. |
| VariableProps.ScanOne | meerkat_abacus/codes/variable.py:38-54 | A single test word scans to that one test. |
| VariableProps.ScanThree | meerkat_abacus/codes/variable.py:38-54 | "test connective test" scans to two tests and one connective. |
| VariableProps.ScannedKind | meerkat_abacus/codes/variable.py:38-54 | A test word appears among the tokens iff its test type appears among the scanned types. |
| VariableProps.KindAt | meerkat_abacus/codes/variable.py:38-47 | Scanned type `k` is the type of token `2k`. |
| VariableProps.BuildAloneChecks | meerkat_abacus/codes/variable.py:81-89 | With several tests, `value` raises `NameError`, and otherwise `calc` does. |
| VariableProps.NotIsKeyError | meerkat_abacus/codes/variable.py:49-51 | `not` passes the connective check but has no translation, so it raises `KeyError`. |
| Variable.MatchHolds | meerkat_abacus/codes/variable.py:174-179 | A missing column, a list of columns or a non-text cell never matches. Whatever `test_match` accepts, `test_sub_match` accepts. |
| Variable.SubMatchHolds | meerkat_abacus/codes/variable.py:181-198 | A missing column, a list of columns, a number or `None` never sub-matches (the swallowed `TypeError`). On a list cell it holds iff some condition element is an item of the list. |
| VariableProps.SubMatchOnText | meerkat_abacus/codes/variable.py:181-198 | On a text cell, `sub_match` holds iff some condition element occurs in the text. |
| VariableProps.SubMatchDirection | meerkat_abacus/codes/variable.py:192-195 | "fever" sub-matches a cell "high fever"; "high fever" does not sub-match "fever". |
| VariableProps.NotNullExamples | meerkat_abacus/codes/variable.py:200-205 | A missing column, `""`, `None` and integer 0 are null. Float 0.0 and a text are not. |
| VariableProps.BetweenInterval | meerkat_abacus/codes/variable.py:232-238 | With all columns present and both bounds numbers, `between` is the half-open test `lo <= x < hi`. |
| VariableProps.BetweenBelowLower | meerkat_abacus/codes/variable.py:238 | Below the lower bound the result is false and the upper bound is never read. |
| VariableProps.AgeBetweenBuild | meerkat_abacus/codes/variable.py:107-117 | `between` with condition "0,5" on column `age` builds one interval test. |
| VariableProps.IntegerAgeBetween | meerkat_abacus/codes/variable.py:220-238 | An age cell holding the text of integer `x` is in iff `lo <= x < hi`. |
| VariableProps.AgeFourIn | meerkat_abacus/codes/variable.py:220-238 | Age "4" is in [0, 5). |
| VariableProps.AgeFiveOut | meerkat_abacus/codes/variable.py:220-238 | Age "5" is out of [0, 5). |
| VariableProps.AgeNegativeOut | meerkat_abacus/codes/variable.py:220-238 | Age "-1" is out of [0, 5). |
| VariableProps.AgeAbsentOut | meerkat_abacus/codes/variable.py:232-236 | A missing or empty age is out. |
| VariableProps.CalcNeverRaisesOnNumbers | meerkat_abacus/codes/variable.py:240-266 | A calculation over its own columns never raises on numeric cells: missing cells are 0 and division by zero gives 0. |
| VariableProps.PrepareNumbersOk | meerkat_abacus/codes/variable.py:252-259 | Preparing a row of numbers cannot fail. |
| VariableProps.CalcMissingColumn | meerkat_abacus/codes/variable.py:254-264 | `a + b` with `b` missing is `a`. `a / b` with `b` missing is 0. |
| Variable.EpochOffset | meerkat_abacus/codes/variable.py:292-296 | For `day:<w>`, `(4 + w) % 7` is below 7 and counts the days from 1970-01-01 to the first day with weekday `w`. "international" gives no offset; a dict raises `TypeError`. |
| VariableProps.ManyResultMeaning | meerkat_abacus/codes/variable.py:149-172 | `test_many` is true iff some run of tests joined by `and` all pass. The first test that raises decides the exception. |
| VariableProps.BuiltManyMeaning | meerkat_abacus/codes/variable.py:23-172 | The same meaning holds for any built multi-test variable, in terms of its method's connectives. |
| VariableProps.MatchAndNotNullBuild | meerkat_abacus/codes/variable.py:23-135 | "match and not_null" over `gender;age` builds two tests joined by `&`. |
| VariableProps.MatchAndNotNullResult | meerkat_abacus/codes/variable.py:149-172 | That variable holds iff gender matches "M" and age is not null. |
| Logic.ParseMeaning | meerkat_abacus/codes/variable.py:45-56 | The compiled `&`/`|` text is true iff some maximal `and`-group of tests is all true. |
| Logic.BuildMeaning | meerkat_abacus/codes/variable.py:45-56 | The same for every prefix of the method, by induction. |
| Logic.AndChainAll | meerkat_abacus/codes/variable.py:45-56 | A chain of `&` is true iff all its operands are. |
| Logic.OrAndPrecedence | meerkat_abacus/codes/variable.py:51 | `x or y and z` means `x or (y and z)`. |
| Logic.UniformConnectives | meerkat_abacus/codes/variable.py:45-56 | Only `and` means all tests pass. Only `or` means some test passes. |
| Arith.Apply | meerkat_abacus/codes/variable.py:261-264 | `/`, `//` and `%` fail iff they divide by zero, with `ZeroDivisionError`; nothing else fails. The remainder of `%` takes the divisor's sign and is smaller than the divisor in size. |
| Arith.DivModIdentity | meerkat_abacus/codes/variable.py:261-264 | `(x // y) * y + x % y == x`, with a whole-number quotient. |
| Arith.OpenFails | meerkat_abacus/codes/variable.py:93-95 | A calculation naming anything other than its replaced columns never yields a number. |
| Arith.ClosedOnlyDividesByZero | meerkat_abacus/codes/variable.py:237 | With numeric columns, a closed calculation fails at most by dividing by zero. |
| Arith.EvalReadsColumns | meerkat_abacus/codes/variable.py:93-95 | A calculation depends only on the replaced columns of the row. |
| Py.ToFloat | meerkat_abacus/codes/variable.py:237-238 | `float()` keeps numbers. On text it succeeds iff the text is a number. It fails only with `ValueError` or `TypeError`. |
| Py.BlankIsFalsy | meerkat_abacus/codes/variable.py:205 | Blank cells are falsy. The falsy non-blank cells are exactly `0.0` and `[]`. |
| EpiWeek.WeekdayStartDate | meerkat_abacus/util/epi_week.py:147-154 | For a weekday `d` in 0..6, the start of the epi year lies within 1–7 January and has weekday `d`. |
| EpiWeek.WeekdayStartInFirstWeek | meerkat_abacus/util/epi_week.py:147-154 | Under `day:<d>` the epi year starts in the first seven days of January, on weekday `d`, with no earlier January day of that weekday. |
| EpiWeek.WeekdayStarts2016 | meerkat_abacus/util/epi_week.py:147-154 | Under `day:0`…`day:6`, epi year 2016 starts on 4, 5, 6, 7, 1, 2 and 3 January. |
| EpiWeek.LatestBefore | meerkat_abacus/util/epi_week.py:56-59 | Finds the latest configured start strictly before the date, or none if no start is before it. |
| EpiWeek.LatestYearBefore | meerkat_abacus/util/epi_week.py:116-120 | Finds the latest configured year whose start is strictly before the date, or none if there is no such year. |
| EpiWeek.YearStartDateByYear | meerkat_abacus/util/epi_week.py:64-94 | Under a dict the start is found iff the year is configured, and then it is that entry. String settings always give a start. |
| EpiWeek.EpiWeekForDate | meerkat_abacus/util/epi_week.py:6-20 | A computed epi week is at least 1. |
| EpiWeek.InternationalNewYear | meerkat_abacus/util/epi_week.py:46-47 | Under "international", 1 January starts its epi year and is week 1. |
| EpiWeek.YearStartDate | meerkat_abacus/util/epi_week.py:23-61 | Under "international" the start is 1 January of the date's year, on or before the date. Under `day:<d>` it lies within 1–7 January and has weekday `d`. Under a dict it is the latest configured start strictly before the date, and there is none iff every start is on or after the date. |
| EpiWeek.WeekdayEpiYear | meerkat_abacus/util/epi_week.py:121-127 | Under `day:<d>`, a date's epi year is the year whose start is on or before the date while the next start is after it. |
| EpiWeek.CalendarEpiYear | meerkat_abacus/util/epi_week.py:128-129 | Under other string settings the epi year is the calendar year. |
| EpiWeek.CustomDomain | meerkat_abacus/util/epi_week.py:56-59 | Under a dict, the start and the year are found for the same dates: those after some configured start. |
| EpiWeek.EpiYearByDate | meerkat_abacus/util/epi_week.py:97-129 | String settings always give a year. Under a dict the epi year is the largest configured year whose start is strictly before the date; there is none (`ValueError`) iff no start is before it. |
| EpiWeek.CustomStartExamples | meerkat_abacus/test/epi_week_test.py:25-38 | The dict cases of the unit test. |
| EpiWeek.WeekdayStartExamples | meerkat_abacus/test/epi_week_test.py:14-23 | The weekday cases of the unit test: for a June 2016 date, `day:0`…`day:6` give 4, 5, 6, 7, 1, 2 and 3 January 2016. |
| EpiWeek.InternationalStartExample | meerkat_abacus/test/epi_week_test.py:9-12 | The "international" case of the unit test. |
| EpiWeek.WeekRoundTrip | meerkat_abacus/util/epi_week.py:132-144 | For a date on or after its year's start, the start of its computed week is on or before it, and the next week's start is after it. |
| EpiWeek.CustomWeekRoundTrip | meerkat_abacus/util/epi_week.py:6-20 | Under a dict whose starts increase with the year, a placed date lies after its epi year's configured start, and the start of its computed week is on or before it while the next week's start is after it. |
| EpiWeek.EpiWeekStartDate | meerkat_abacus/util/epi_week.py:132-144 | Under a dict a week start exists iff the year is configured. Week 1 starts with the epi year. Under `day:<d>` every week starts on weekday `d`. |
| EpiWeek.WeekdayEarlyDays | meerkat_abacus/util/epi_week.py:14-18 | Under `day:<d>`, a date before its year's start gets week 1 of the previous epi year. That week starts almost a year earlier. |
| Civil.ToFromCivil | meerkat_abacus/util/epi_week.py:47 | Converting a valid (year, month, day) to an ordinal and back gives the same date. |
| Civil.ReplaceYearJanuary | meerkat_abacus/util/__init__.py:23 | `replace(year=y)` of a January date gives the same day of January in `y`. |
| Util.StartDate | meerkat_abacus/util/__init__.py:39-66 | Under a dict, the start exists iff the year is configured; otherwise `KeyError`. Other strings give `IndexError`. |
| Util.StartDateAgrees | meerkat_abacus/util/__init__.py:39-66 | Both packages agree on the start of an epi year, except under other string settings. |
| Util.StartDateWeekday | meerkat_abacus/util/__init__.py:57-64 | Under `day:<d>` the start lies within 1–7 January and has weekday `d`. |
| Util.UtilEpiWeek | meerkat_abacus/util/__init__.py:13-25 | Other strings raise `IndexError`; a dict without the date's year raises `KeyError`. A date on or after its year's start falls inside the week the result names, counted from 1 in the start's year. |
| Util.UtilEpiWeekAgrees | meerkat_abacus/util/__init__.py:13-25 | On or after its year's start, a date gets the same epi week from both packages. |
| Util.UtilEpiWeekEarlyDays | meerkat_abacus/util/__init__.py:21-25 | Under `day:<d>`, a date before the start falls in week 52 or 53 of the previous year. |
| Util.StartMovedBack | meerkat_abacus/util/__init__.py:22-23 | The moved-back start is in the previous year, 359 to 365 days before the date. |
| Util.UtilEpiWeekExample | meerkat_abacus/util/__init__.py:13-25 | 2 January 2016 under `day:0` is week 52 of 2015. |
| Util.EpiWeekExample | meerkat_abacus/util/epi_week.py:6-20 | The same date is week 1 of 2015 under `epi_week.py`. |
| Util.MutableRow.FieldToList | meerkat_abacus/util/__init__.py:86-105 | A missing key raises `KeyError`. Otherwise the field becomes `Listed` of its old value (or the call raises), and no other field changes. |
| Util.Listed | meerkat_abacus/util/__init__.py:97-104 | A falsy value stays. A truthy number raises `TypeError`. A truthy list raises `AttributeError` iff it holds the text ";" or ","; otherwise it is wrapped. A truthy value that succeeds becomes a non-empty list. |
| Util.ListedSplitsText | meerkat_abacus/util/__init__.py:99-104 | For any text: `""` stays. Text with `;` splits on `;`, otherwise text with `,` splits on `,`; there is one item per piece, the stripped piece, and it holds no separator and is already stripped. Text with neither is wrapped. |
| Util.ListedJoinsBack | meerkat_abacus/util/__init__.py:99-104 | For text without whitespace that has a separator, the items joined back with it give the text. |
| Util.RefineHermesTopics | meerkat_abacus/util/__init__.py:312-341 | The backward deletion loop returns exactly `Refined`. |
| Util.RefinedMeaning | meerkat_abacus/util/__init__.py:328-341 | Outside dev mode the topics are returned as a list. In dev mode a topic is kept iff it is listed and allowed. |
| Util.AllowedMembers | meerkat_abacus/util/__init__.py:334-337 | Filtering keeps exactly the allowed topics. |
| Util.AllowedAppend | meerkat_abacus/util/__init__.py:334-337 | Filtering distributes over concatenation, so order is kept. |
| Util.AllowedIdempotent | meerkat_abacus/util/__init__.py:334-337 | Filtering twice is filtering once. |
| Util.TopicLocations | meerkat_abacus/util/__init__.py:404-410 | Three locations, or four when the district differs from the region. |
| Util.Product | meerkat_abacus/util/__init__.py:412 | The product pairs each location with the reason, then with `allDis`. |
| Util.TopicsOfIndex | meerkat_abacus/util/__init__.py:414-416 | Topic `m` is `prefix-loc-reason` of combination `m`. |
| Util.TopicListOrder | meerkat_abacus/util/__init__.py:402-420 | There are two topics per location: the reason topic at `2i`, the `allDis` topic at `2i+1`. |
| Util.CreateTopicList | meerkat_abacus/util/__init__.py:387-420 | An alert without an "alert_reason" variable, or with an unknown clinic, raises `KeyError`. Otherwise the result is the topic list, for that reason and "allDis", of the locations clinic, region, 1 and the district when it differs. |
| Util.TopicPair | meerkat_abacus/util/__init__.py:412-416 | Location `i` contributes its reason topic at position `2i` and its `allDis` topic at `2i+1`. |
| Util.TopicCount | meerkat_abacus/util/__init__.py:402-416 | There are 6 topics, or 8 with a separate district. |
| Util.AssignKeys | meerkat_abacus/util/__init__.py:208-213 | Assigning ids adds exactly those keys, maps them to the location, and keeps the rest. |
| Util.IndexKeys | meerkat_abacus/util/__init__.py:206-214 | A device id is a key iff some listing names it. |
| Util.IndexLastWins | meerkat_abacus/util/__init__.py:206-214 | A device id maps to the last listing that names it. |
| Util.LocationsByDeviceid | meerkat_abacus/util/__init__.py:194-214 | The loop computes `ByDevice`. |
| Util.AssignPieces | meerkat_abacus/util/__init__.py:208-213 | The inner loop maps every comma-separated id of one location to that location. |
| Util.ByDeviceKeys | meerkat_abacus/util/__init__.py:206-214 | A device id is a key iff some location lists it. |
| Util.ByDeviceLastWins | meerkat_abacus/util/__init__.py:206-214 | A device id maps to the last location that lists it. |
| Util.RegionsDistricts | meerkat_abacus/util/__init__.py:172-191 | The two loops compute `RegionIds` and then `DistrictIds` over those regions. |
| Util.RegionMembers | meerkat_abacus/util/__init__.py:185-187 | A region is exactly a location at level "region" whose parent is 1. |
| Util.DistrictMembers | meerkat_abacus/util/__init__.py:188-190 | A district is exactly a location at level "district" whose parent is a region. |
| Util.DeviceidList | meerkat_abacus/util/__init__.py:251-275 | The loop lists every device id of the selected locations, in order. |
| Util.AppendPieces | meerkat_abacus/util/__init__.py:269-274 | The inner loop appends every comma-separated id of one location, in order. |
| Util.DeviceIdsAreKeys | meerkat_abacus/util/__init__.py:251-275 | The listed device ids are exactly the keys of the by-device index. |
| Util.SelectedAll | meerkat_abacus/util/__init__.py:262-266 | Without `case_report` every location is selected. |

## Left out

- Time of day: dates are whole days. The `strptime` formats with hours, and fractional seconds, are not modelled.
- The year range 1..9999 of Python's `datetime` is not modelled; day ordinals are unbounded integers.
- `dateutil.parser.parse(...).isoformat()` and `datetime.strptime` over the accepted formats are parameters of the model (`Variable.Env`), not implementations.
- `eval` of the calculation text: the textual replacement of column names by `float(row["c"])` and Python's parser are replaced by a parsed expression tree (`Arith.Expr`), obtained from a parser parameter. Text-replacement accidents, such as one column name inside another, are not modelled.
- Operators of `eval` (`Arith.Expr`): it is modelled for constants, the replaced columns, unary `-` and `+`, and `+ - * / // %`. Powers (`**`), comparisons and calls such as `abs()` or `round()` are not: a parser parameter must map such text to `Unparsable`, so the model answers `SyntaxError` where Python would compute a value.
- Floats are reals: no rounding, infinity or NaN. `float()` of text strips whitespace and then accepts decimal literals only (`Text.ParseNumber`), not exponents, underscores, `inf` or `nan`.
- Python's `bool` being an `int` is not modelled.
- The in-place rewrite of `self.columns[i]` into a list inside `test_many` is modelled by fixing the list form when the rule is built. Aliasing between calls is not modelled.
- Util.RefineHermesTopics: the copy made of the caller's list is a value here, so aliasing is not modelled.
- Logging, the Hermes HTTP request, e-mail and SMS alerts, database sessions, CSV files and the other readers of the utility package are I/O and are left out. `consumer.py`, `orchestrate.py` and `send_alerts.py` are not part of this model.
- `get_start_date_by_deviceid` and `get_locations` are plain database lookups and are not part of this model.
- EpiWeek.EpiWeekForDate: its own contract states only that the week is at least 1. Its meaning is given by `WeekRoundTrip` ("international" and "day:<d>" on or after the start), `WeekdayEarlyDays` ("day:<d>" before the start) and `CustomWeekRoundTrip` (a dict whose starts increase with the year). For a dict whose starts do not increase with the year, the epi year and the start can come from different entries; the model computes that as written but states no property of it.
- An `epi_week` setting (`EpiWeek.Config`) is "international", "day:<d>" with an integer `d`, a dict, or `Other` for every other string. A malformed "day" string (one that `int` cannot read after the colon) is not modelled; `Other` stands for strings without "day". In `to_date`, `Other` is taken to fail like "international", although a string whose characters after the fourth read as an integer would give an offset.
- Util.LocationsByDeviceid: the locations are a sequence, while the source walks a dict keyed by location id; ids are taken to be distinct. The same holds for `Util.RegionsDistricts`.
- The alert given to `create_topic_list` is reduced to its variables, clinic and region (`Util.Alert`), and the "alert_reason" variable is taken as the text `str()` would give. Logging the topic list is left out.
