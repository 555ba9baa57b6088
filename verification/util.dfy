/**
  The helpers of the utility package: the older epi-week calculation, the
  in-place rewrite of a row field into a list, the filtering of Hermes topics
  in development mode, the topic list of an alert, and the loops that index
  locations by device id, collect regions and districts and list device ids.
  Database queries are replaced by the sequence of rows they return.
 */
module Util {
  import opened Wrappers
  import opened Text
  import opened Py
  import opened Civil
  import EpiWeek

  // ---------------------------------------------------------------- epi weeks

  /**
    `epi_week_start_date(year, epi_config)` of the utility package: 1 January,
    or 1 January moved forward to weekday `day`, or a plain index of the
    configuration by year: a missing year in a dict is a `KeyError`, and
    indexing any other string by a year is an `IndexError`.
   */
  function StartDate(year: int, cfg: EpiWeek.Config): (r: Result<int, Exc>)
    ensures cfg.Custom? ==> (r.Ok? <==> year in cfg.starts)
    ensures cfg.Custom? && year !in cfg.starts ==> r == Err(KeyError)
    ensures cfg.Other? ==> r == Err(IndexError)
  {
    match cfg
    case International => Ok(JanFirst(year))
    case DayOfWeek(day) => Ok(EpiWeek.WeekdayStartDate(year, day))
    case Custom(starts) => if year in starts then Ok(starts[year]) else Err(KeyError)
    case Other => Err(IndexError)
  }

  /**
    Both packages agree on where an epi year starts, except for a string
    setting other than "international" and "day:<day>", where this one fails.
   */
  lemma StartDateAgrees(year: int, cfg: EpiWeek.Config)
    ensures !cfg.Other? ==> (StartDate(year, cfg).Ok? <==> EpiWeek.YearStartDateByYear(year, cfg).Some?)
    ensures StartDate(year, cfg).Ok? ==> EpiWeek.YearStartDateByYear(year, cfg) == Some(StartDate(year, cfg).value)
  {
  }

  /** Under "day:<day>" the start has weekday `day` and lies in the first seven days of January. */
  lemma StartDateWeekday(year: int, day: int)
    requires 0 <= day < 7
    ensures StartDate(year, EpiWeek.DayOfWeek(day)).Ok?
    ensures var s := StartDate(year, EpiWeek.DayOfWeek(day)).value;
      JanFirst(year) <= s <= JanFirst(year) + 6 && Weekday(s) == day
  {
    EpiWeek.WeekdayStartInFirstWeek(year, day);
  }

  /**
    `epi_week(date)` of the utility package: the start of the date's calendar
    year; a date before it uses the same month and day one year earlier
    (`replace`, a `ValueError` for 29 February); the year is that start's year
    and the week counts whole weeks since it, from 1. A date on or after the
    start falls inside the week the result names.
   */
  function UtilEpiWeek(date: int, cfg: EpiWeek.Config): (r: Result<EpiWeek.Week, Exc>)
    ensures cfg.Other? ==> r == Err(IndexError)
    ensures cfg.Custom? && YearOf(date) !in cfg.starts ==> r == Err(KeyError)
    ensures var s := StartDate(YearOf(date), cfg);
      s.Ok? && s.value <= date ==>
        && r.Ok? && r.value.year == YearOf(s.value) && r.value.week >= 1
        && s.value + 7 * (r.value.week - 1) <= date < s.value + 7 * r.value.week
  {
    match StartDate(YearOf(date), cfg)
    case Err(e) => Err(e)
    case Ok(s) =>
      match StartOnOrBefore(date, s)
      case None => Err(ValueError)
      case Some(t) => Ok(WeekSince(date, t))
  }

  /** The start itself, or for a date before it, the same month and day a year earlier. */
  function StartOnOrBefore(date: int, s: int): Option<int>
  {
    if date < s then ReplaceYear(s, YearOf(s) - 1) else Some(s)
  }

  /** The year of the start and the number of whole weeks since it, counted from 1. */
  function WeekSince(date: int, t: int): EpiWeek.Week
  {
    EpiWeek.Week(YearOf(t), (date - t) / 7 + 1)
  }

  /**
    On or after its year's start under "international" or "day:<day>", a date
    gets the same epi year and week from both packages.
   */
  lemma UtilEpiWeekAgrees(date: int, cfg: EpiWeek.Config)
    requires cfg.International? || (cfg.DayOfWeek? && 0 <= cfg.day < 7)
    requires date >= StartDate(YearOf(date), cfg).value
    ensures UtilEpiWeek(date, cfg).Ok? && EpiWeek.EpiWeekForDate(date, cfg).Some?
    ensures UtilEpiWeek(date, cfg).value == EpiWeek.EpiWeekForDate(date, cfg).value
  {
    var y := YearOf(date);
    var s := StartDate(y, cfg).value;
    YearLength(y);
    if cfg.DayOfWeek? {
      EpiWeek.WeekdayStartInFirstWeek(y, cfg.day);
    }
    YearOfUnique(s, y);
  }

  /** The week a start date after the date, moved back a year to `t`, gives. */
  lemma UtilEpiWeekMovedBack(date: int, cfg: EpiWeek.Config, y: int, s: int, t: int)
    requires y == YearOf(date) && StartDate(y, cfg) == Ok(s) && date < s
    requires StartOnOrBefore(date, s) == Some(t)
    ensures UtilEpiWeek(date, cfg) == Ok(WeekSince(date, t))
  {
  }

  /**
    Under "day:<day>", a date before its year's start (one of the first days of
    January) falls in week 52 or 53 of the previous year here, where the
    epi-week module puts it in week 1 of the previous year
    (`EpiWeek.WeekdayEarlyDays`).
   */
  lemma UtilEpiWeekEarlyDays(date: int, day: int, y: int, s: int)
    requires 0 <= day < 7 && y == YearOf(date) && s == EpiWeek.WeekdayStartDate(y, day)
    requires date < s
    ensures UtilEpiWeek(date, EpiWeek.DayOfWeek(day)) == Ok(WeekSince(date, s - DaysInYear(y - 1)))
    ensures WeekSince(date, s - DaysInYear(y - 1)).year == y - 1
    ensures 52 <= WeekSince(date, s - DaysInYear(y - 1)).week <= 53
  {
    var t := s - DaysInYear(y - 1);
    StartMovedBack(date, y, day, s, t);
    UtilEpiWeekMovedBack(date, EpiWeek.DayOfWeek(day), y, s, t);
  }

  /** Under "day:<day>", the start of year `y` lies in the first week of `y`. */
  lemma StartInYear(y: int, day: int, s: int)
    requires 0 <= day < 7 && s == EpiWeek.WeekdayStartDate(y, day)
    ensures JanFirst(y) <= s <= JanFirst(y) + 6
    ensures YearOf(s) == y
  {
    EpiWeek.WeekdayStartInFirstWeek(y, day);
    YearLength(y);
    YearOfUnique(s, y);
  }

  /** Under "day:<day>", the start of year `y` moved back a year is the same day of January of `y - 1`. */
  lemma StartReplaced(y: int, day: int, s: int, t: int)
    requires 0 <= day < 7 && s == EpiWeek.WeekdayStartDate(y, day) && t == s - DaysInYear(y - 1)
    ensures ReplaceYear(s, y - 1) == Some(t)
    ensures YearOf(t) == y - 1
  {
    StartInYear(y, day, s);
    YearLength(y - 1);
    var k := s - JanFirst(y) + 1;
    ReplaceYearJanuary(s, y, k, y - 1);
    YearOfUnique(t, y - 1);
  }

  /** A date of `y` before the start of `y` under "day:<day>" lies 359 to 365 days after the moved start. */
  lemma StartMovedBack(date: int, y: int, day: int, s: int, t: int)
    requires 0 <= day < 7 && s == EpiWeek.WeekdayStartDate(y, day) && t == s - DaysInYear(y - 1)
    requires y == YearOf(date) && date < s
    ensures StartOnOrBefore(date, s) == Some(t)
    ensures YearOf(t) == y - 1 && 359 <= date - t <= 365
  {
    StartReplaced(y, day, s, t);
    StartInYear(y, day, s);
    MovedStart(date, s, y, t);
  }

  lemma MovedStart(date: int, s: int, y: int, t: int)
    requires date < s && YearOf(s) == y && ReplaceYear(s, y - 1) == Some(t)
    ensures StartOnOrBefore(date, s) == Some(t)
  {
    var x := YearOf(s) - 1;
    assert x == y - 1;
  }

  /** Where 2 January 2016 lies: the second day of 2016, before the 2016 start under "day:0". */
  lemma SecondOfJanuary2016(date: int)
    requires date == FromCivil(2016, 1, 2)
    ensures date == JanFirst(2016) + 1 && YearOf(date) == 2016
    ensures EpiWeek.WeekdayStartDate(2016, 0) == JanFirst(2016) + 3
    ensures JanFirst(2016) == JanFirst(2015) + 365 && !IsLeap(2015)
  {
    NewYears2016();
    MondayStart2016();
    YearOfUnique(date, 2016);
  }

  lemma NewYears2016()
    ensures JanFirst(2015) == 735599 && JanFirst(2016) == 735964 && JanFirst(2017) == 736330
  {
  }

  lemma MondayStart2016()
    ensures EpiWeek.WeekdayStartDate(2016, 0) == JanFirst(2016) + 3
  {
    NewYears2016();
    assert Weekday(735964) == 4;
  }

  /** The second of January of a year whose "day:0" start is the fourth, after a common year. */
  lemma SecondOfJanuary(date: int, y: int, s: int)
    requires date == JanFirst(y) + 1 && YearOf(date) == y
    requires s == EpiWeek.WeekdayStartDate(y, 0) && s == JanFirst(y) + 3 && !IsLeap(y - 1)
    ensures UtilEpiWeek(date, EpiWeek.DayOfWeek(0)) == Ok(EpiWeek.Week(y - 1, 52))
  {
    UtilEpiWeekEarlyDays(date, 0, y, s);
    var t := s - DaysInYear(y - 1);
    assert WeekSince(date, t) == EpiWeek.Week(y - 1, 52);
  }

  /** 2 January 2016 under "day:0" is in week 52 of 2015 here. */
  lemma UtilEpiWeekExample(date: int)
    requires date == FromCivil(2016, 1, 2)
    ensures UtilEpiWeek(date, EpiWeek.DayOfWeek(0)) == Ok(EpiWeek.Week(2015, 52))
  {
    SecondOfJanuary2016(date);
    SecondOfJanuary(date, 2016, JanFirst(2016) + 3);
  }

  /** The same day is in week 1 of 2015 for the epi-week module. */
  lemma EpiWeekExample(date: int)
    requires date == FromCivil(2016, 1, 2)
    ensures EpiWeek.EpiWeekForDate(date, EpiWeek.DayOfWeek(0)) == Some(EpiWeek.Week(2015, 1))
  {
    SecondOfJanuary2016(date);
    EpiWeek.WeekdayEarlyDays(date, 0);
  }

  // ---------------------------------------------------------------- field_to_list

  /** A data row whose fields are rewritten in place. */
  class MutableRow {
    var fields: map<string, Value>

    constructor (fields: map<string, Value>)
      ensures this.fields == fields
    {
      this.fields := fields;
    }

    /**
      `field_to_list(row, key)`: a falsy field is left alone; otherwise the
      field becomes the list `Listed` gives, and no other field changes.
     */
    method FieldToList(key: string) returns (r: Result<(), Exc>)
      modifies this
      ensures key !in old(fields) ==> r == Err(KeyError) && fields == old(fields)
      ensures key in old(fields) ==> match Listed(old(fields)[key])
        case Err(e) => r == Err(e) && fields == old(fields)
        case Ok(v) => r == Ok(()) && fields == old(fields)[key := v]
    {
      if key !in fields {
        return Err(KeyError);
      }
      var v := fields[key];
      if !Truthy(v) {
        return Ok(());
      }
      if v.Str? {
        if ';' in v.s {
          fields := fields[key := List(AsTexts(StripAll(Split(v.s, ';'))))];
        } else if ',' in v.s {
          fields := fields[key := List(AsTexts(StripAll(Split(v.s, ','))))];
        } else {
          fields := fields[key := List([v])];
        }
        return Ok(());
      }
      if v.List? {
        if Str(";") in v.items || Str(",") in v.items {
          return Err(AttributeError);
        }
        fields := fields[key := List([v])];
        return Ok(());
      }
      return Err(TypeError);
    }
  }

  /** Texts as cells. */
  function AsTexts(parts: seq<string>): (r: seq<Value>)
    ensures |r| == |parts| && forall k :: 0 <= k < |r| ==> r[k] == Str(parts[k])
  {
    seq(|parts|, k requires 0 <= k < |parts| => Str(parts[k]))
  }

  /**
    The new value of the field: a falsy value stays; a text is split on ";"
    when it holds one, else on ",", every piece stripped, else wrapped in a
    list; a list holding the text ";" or "," fails on `split`; a list
    otherwise is wrapped; `in` on a number is a `TypeError`.
   */
  function Listed(v: Value): (r: Result<Value, Exc>)
    ensures !Truthy(v) ==> r == Ok(v)
    ensures r.Ok? && Truthy(v) ==> r.value.List? && |r.value.items| >= 1
    ensures Truthy(v) && (v.Int? || v.Real?) ==> r == Err(TypeError)
    ensures Truthy(v) && v.List? ==>
      (r.Err? <==> Str(";") in v.items || Str(",") in v.items) && (r.Ok? ==> r == Ok(List([v])))
    ensures r.Err? ==> r.error in {TypeError, AttributeError}
  {
    if !Truthy(v) then Ok(v)
    else
      match v
      case Str(s) =>
        if ';' in s then Ok(List(AsTexts(StripAll(Split(s, ';')))))
        else if ',' in s then Ok(List(AsTexts(StripAll(Split(s, ',')))))
        else Ok(List([v]))
      case List(items) =>
        if Str(";") in items || Str(",") in items then Err(AttributeError) else Ok(List([v]))
      case _ => Err(TypeError)
  }

  /** The texts of a list of text cells. */
  function Texts(items: seq<Value>): seq<string>
    requires forall k :: 0 <= k < |items| ==> items[k].Str?
  {
    seq(|items|, k requires 0 <= k < |items| => items[k].s)
  }

  /**
    Any text: the empty text stays; a text with ";" splits on ";" (even if it
    also has a ","), else one with "," splits on ","; there is one item per
    piece of the split, the piece stripped, holding no separator; a text with
    neither is wrapped in a one-element list.
   */
  lemma ListedSplitsText(s: string)
    ensures s == "" ==> Listed(Str(s)) == Ok(Str(s))
    ensures s != "" && ';' !in s && ',' !in s ==> Listed(Str(s)) == Ok(List([Str(s)]))
    ensures ';' in s || ',' in s ==>
      var sep := if ';' in s then ';' else ',';
      var parts := Split(s, sep);
      && Listed(Str(s)).Ok? && Listed(Str(s)).value.List?
      && |Listed(Str(s)).value.items| == |parts|
      && forall k :: 0 <= k < |parts| ==>
           var item := Listed(Str(s)).value.items[k];
           && item == Str(Strip(parts[k]))
           && Strip(item.s) == item.s
           && sep !in item.s
  {
    if ';' in s || ',' in s {
      var sep := if ';' in s then ';' else ',';
      StrippedPieces(s, sep);
    }
  }

  /**
    A text without whitespace and with a separator: joining the items back
    with that separator gives the text again.
   */
  lemma ListedJoinsBack(s: string)
    requires ';' in s || ',' in s
    requires forall k :: 0 <= k < |s| ==> !IsSpace(s[k])
    ensures Listed(Str(s)).Ok? && Listed(Str(s)).value.List?
    ensures var items := Listed(Str(s)).value.items;
      var sep := if ';' in s then ';' else ',';
      && (forall k :: 0 <= k < |items| ==> items[k].Str?)
      && Join(Texts(items), sep) == s
  {
    var sep := if ';' in s then ';' else ',';
    var parts := Split(s, sep);
    PiecesStripped(s, sep);
    assert Listed(Str(s)) == Ok(List(AsTexts(parts)));
    assert Texts(AsTexts(parts)) == parts;
    JoinSplit(s, sep);
  }

  /** The pieces of a text without whitespace are already stripped. */
  lemma PiecesStripped(s: string, sep: char)
    requires forall k :: 0 <= k < |s| ==> !IsSpace(s[k])
    ensures StripAll(Split(s, sep)) == Split(s, sep)
  {
    var parts := Split(s, sep);
    forall k | 0 <= k < |parts| ensures Strip(parts[k]) == parts[k] {
      PieceChars(s, sep, k);
      var p := parts[k];
      assert forall i :: 0 <= i < |p| ==> p[i] in s;
      StripNoSpace(p);
    }
  }

  /** Every character of a piece of a split is a character of the text. */
  lemma {:induction false} PieceChars(s: string, sep: char, k: nat)
    requires k < |Split(s, sep)|
    ensures forall c :: c in Split(s, sep)[k] ==> c in s
    decreases |s|
  {
    if sep in s {
      var j := IndexOf(s, sep);
      var rest := s[j + 1..];
      assert Split(s, sep) == [s[..j]] + Split(rest, sep);
      if k == 0 {
        assert forall c :: c in s[..j] ==> c in s;
      } else {
        PieceChars(rest, sep, k - 1);
        assert forall c :: c in rest ==> c in s;
      }
    }
  }

  // ---------------------------------------------------------------- refine_hermes_topics

  /** `topics` as a fresh list: a list is copied, anything else becomes a one-element list. */
  function AsList(topics: Value): seq<Value>
  {
    if topics.List? then topics.items else [topics]
  }

  /** The topics that are among the allowed ones, in their order. */
  function Allowed(topics: seq<Value>, allowed: seq<Value>): seq<Value>
  {
    if |topics| == 0 then []
    else (if topics[0] in allowed then [topics[0]] else []) + Allowed(topics[1..], allowed)
  }

  /** What `refine_hermes_topics` returns. */
  function Refined(topics: Value, dev: bool, devTopics: seq<Value>): seq<Value>
  {
    if dev then Allowed(AsList(topics), devTopics) else AsList(topics)
  }

  /**
    `refine_hermes_topics(topics)`: copies the topics into a list and, in
    development mode, deletes from the back every topic that is not an
    allowed development topic.
   */
  method RefineHermesTopics(topics: Value, dev: bool, devTopics: seq<Value>) returns (r: seq<Value>)
    ensures r == Refined(topics, dev, devTopics)
  {
    var s := AsList(topics);
    r := s;
    if dev {
      var t := |r|;
      while t > 0
        invariant 0 <= t <= |s|
        invariant r == s[..t] + Allowed(s[t..], devTopics)
      {
        t := t - 1;
        assert s[t..][1..] == s[t + 1..];
        if r[t] !in devTopics {
          r := r[..t] + r[t + 1..];
          assert r == s[..t] + Allowed(s[t + 1..], devTopics);
        }
      }
      assert s[0..] == s;
    }
  }

  /** A topic survives exactly when it was among the topics and is allowed. */
  lemma {:induction false} AllowedMembers(topics: seq<Value>, allowed: seq<Value>, x: Value)
    ensures x in Allowed(topics, allowed) <==> x in topics && x in allowed
    decreases |topics|
  {
    if |topics| > 0 {
      AllowedMembers(topics[1..], allowed, x);
      assert topics == [topics[0]] + topics[1..];
    }
  }

  /** Filtering a concatenation filters each part, so the order of the survivors is kept. */
  lemma {:induction false} AllowedAppend(a: seq<Value>, b: seq<Value>, allowed: seq<Value>)
    ensures Allowed(a + b, allowed) == Allowed(a, allowed) + Allowed(b, allowed)
    decreases |a|
  {
    if |a| > 0 {
      assert (a + b)[1..] == a[1..] + b;
      AllowedAppend(a[1..], b, allowed);
    } else {
      assert a + b == b;
    }
  }

  /** Refining twice is refining once. */
  lemma {:induction false} AllowedIdempotent(topics: seq<Value>, allowed: seq<Value>)
    ensures Allowed(Allowed(topics, allowed), allowed) == Allowed(topics, allowed)
    decreases |topics|
  {
    if |topics| > 0 {
      var head := if topics[0] in allowed then [topics[0]] else [];
      AllowedIdempotent(topics[1..], allowed);
      AllowedAppend(head, Allowed(topics[1..], allowed), allowed);
      if topics[0] in allowed {
        assert Allowed(head, allowed) == head by {
          assert head[1..] == [];
        }
      }
    }
  }

  /** Outside development mode the topics come back unchanged; in it, only allowed topics come back. */
  lemma RefinedMeaning(topics: Value, dev: bool, devTopics: seq<Value>)
    ensures !dev ==> Refined(topics, dev, devTopics) == AsList(topics)
    ensures dev ==> forall x :: x in Refined(topics, dev, devTopics) <==> x in AsList(topics) && x in devTopics
  {
    if dev {
      forall x ensures x in Refined(topics, dev, devTopics) <==> x in AsList(topics) && x in devTopics {
        AllowedMembers(AsList(topics), devTopics, x);
      }
    }
  }

  // ---------------------------------------------------------------- create_topic_list

  /** A location row: id, parent location, level, device ids text and case-report flag. */
  datatype Location = Location(id: int, parent: Option<int>, level: string, deviceid: Option<string>, caseReport: int)

  /** `str()` of a location id, `"None"` for a clinic without a parent. */
  function LocText(loc: Option<int>): string
  {
    match loc
    case None => "None"
    case Some(i) => IntToString(i)
  }

  /** One topic: `str(prefix) + "-" + str(loc) + "-" + str(reason)`. */
  function Topic(prefix: string, loc: string, reason: string): string
  {
    prefix + "-" + loc + "-" + reason
  }

  /** The locations of the topic list: clinic, region, 1, and the clinic's parent when it is not the region. */
  function TopicLocations(clinic: int, region: int, district: Option<int>): (r: seq<string>)
    ensures |r| == (if district == Some(region) then 3 else 4)
  {
    var locs := [IntToString(clinic), IntToString(region), IntToString(1)];
    if district != Some(region) then locs + [LocText(district)] else locs
  }

  /** `itertools.product(locs, [r0, r1])`: every location with each reason, location-major. */
  function Product(locs: seq<string>, r0: string, r1: string): (r: seq<(string, string)>)
    ensures |r| == 2 * |locs|
    ensures forall i :: 0 <= i < |locs| ==> r[2 * i] == (locs[i], r0) && r[2 * i + 1] == (locs[i], r1)
  {
    seq(2 * |locs|, k requires 0 <= k < 2 * |locs| => (locs[k / 2], if k % 2 == 0 then r0 else r1))
  }

  /** One topic per combination, in the order of the combinations. */
  function TopicsOf(prefix: string, combinations: seq<(string, string)>): (r: seq<string>)
    ensures |r| == |combinations|
  {
    if |combinations| == 0 then []
    else
      var c := combinations[|combinations| - 1];
      TopicsOf(prefix, combinations[..|combinations| - 1]) + [Topic(prefix, c.0, c.1)]
  }

  lemma TopicsOfStep(prefix: string, combinations: seq<(string, string)>, k: nat)
    requires k < |combinations|
    ensures TopicsOf(prefix, combinations[..k + 1])
      == TopicsOf(prefix, combinations[..k]) + [Topic(prefix, combinations[k].0, combinations[k].1)]
  {
    assert combinations[..k + 1][..k] == combinations[..k];
  }

  lemma {:induction false} TopicsOfIndex(prefix: string, combinations: seq<(string, string)>, m: nat)
    requires m < |combinations|
    ensures TopicsOf(prefix, combinations)[m] == Topic(prefix, combinations[m].0, combinations[m].1)
    decreases |combinations|
  {
    var n := |combinations| - 1;
    if m < n {
      TopicsOfIndex(prefix, combinations[..n], m);
    }
  }

  /** The topics of the combinations of `locs` with `reason` and "allDis". */
  function TopicList(prefix: string, reason: string, locs: seq<string>): seq<string>
  {
    TopicsOf(prefix, Product(locs, reason, "allDis"))
  }

  /**
    The topic list has two topics per location, the alert's reason first and
    "allDis" second, the locations in order.
   */
  lemma TopicListOrder(prefix: string, reason: string, locs: seq<string>)
    ensures |TopicList(prefix, reason, locs)| == 2 * |locs|
    ensures forall i :: 0 <= i < |locs| ==>
      TopicList(prefix, reason, locs)[2 * i] == Topic(prefix, locs[i], reason)
      && TopicList(prefix, reason, locs)[2 * i + 1] == Topic(prefix, locs[i], "allDis")
  {
    forall i | 0 <= i < |locs| {
      TopicPair(prefix, reason, locs, i);
    }
  }

  lemma TopicPair(prefix: string, reason: string, locs: seq<string>, i: nat)
    requires i < |locs|
    ensures TopicList(prefix, reason, locs)[2 * i] == Topic(prefix, locs[i], reason)
    ensures TopicList(prefix, reason, locs)[2 * i + 1] == Topic(prefix, locs[i], "allDis")
  {
    var c := Product(locs, reason, "allDis");
    TopicAt(prefix, c, 2 * i, locs[i], reason);
    TopicAt(prefix, c, 2 * i + 1, locs[i], "allDis");
  }

  lemma TopicAt(prefix: string, combinations: seq<(string, string)>, m: nat, loc: string, r: string)
    requires m < |combinations| && combinations[m] == (loc, r)
    ensures TopicsOf(prefix, combinations)[m] == Topic(prefix, loc, r)
  {
    TopicsOfIndex(prefix, combinations, m);
  }

  /** The part of an alert that topics are built from: its variables, clinic and region. */
  datatype Alert = Alert(variables: map<string, string>, clinic: int, region: int)

  /**
    `create_topic_list(alert, locations)`: a `KeyError` when the alert has no
    "alert_reason" variable or its clinic is not a known location; otherwise one
    topic per combination of a location and a reason (the alert's reason, then
    "allDis"), location-major.
   */
  method CreateTopicList(prefix: string, alert: Alert, locations: map<int, Location>)
    returns (r: Result<seq<string>, Exc>)
    ensures ("alert_reason" !in alert.variables || alert.clinic !in locations) <==> r.Err?
    ensures r.Err? ==> r.error == KeyError
    ensures r.Ok? ==> r.value == TopicList(prefix, alert.variables["alert_reason"],
                                           TopicLocations(alert.clinic, alert.region, locations[alert.clinic].parent))
  {
    if "alert_reason" !in alert.variables {
      return Err(KeyError);
    }
    var reason := alert.variables["alert_reason"];
    var clinic := alert.clinic;
    if clinic !in locations {
      return Err(KeyError);
    }
    var locs := TopicLocations(clinic, alert.region, locations[clinic].parent);
    var combinations := Product(locs, reason, "allDis");
    var topics: seq<string> := [];
    var k := 0;
    while k < |combinations|
      invariant 0 <= k <= |combinations|
      invariant topics == TopicsOf(prefix, combinations[..k])
    {
      TopicsOfStep(prefix, combinations, k);
      topics := topics + [Topic(prefix, combinations[k].0, combinations[k].1)];
      k := k + 1;
    }
    assert combinations[..k] == combinations;
    return Ok(topics);
  }

  /** Six topics when the clinic's parent is the region, eight otherwise. */
  lemma TopicCount(clinic: int, region: int, district: Option<int>)
    ensures 2 * |TopicLocations(clinic, region, district)| == (if district == Some(region) then 6 else 8)
  {
  }

  // ---------------------------------------------------------------- location helpers

  /** The device ids of a location: none for an empty field, else its comma-separated pieces. */
  function DeviceIds(deviceid: Option<string>): seq<string>
  {
    if deviceid.None? || deviceid.value == "" then [] else Split(deviceid.value, ',')
  }

  /** `m` with every id of `ids` set to `v`, in order. */
  function Assign(m: map<string, int>, ids: seq<string>, v: int): map<string, int>
  {
    if |ids| == 0 then m else Assign(m, ids[..|ids| - 1], v)[ids[|ids| - 1] := v]
  }

  lemma {:induction false} AssignKeys(m: map<string, int>, ids: seq<string>, v: int, d: string)
    ensures d in Assign(m, ids, v) <==> d in m || d in ids
    ensures d in ids ==> Assign(m, ids, v)[d] == v
    ensures d !in ids && d in m ==> Assign(m, ids, v)[d] == m[d]
    decreases |ids|
  {
    if |ids| > 0 {
      var n := |ids| - 1;
      AssignKeys(m, ids[..n], v, d);
      assert ids == ids[..n] + [ids[n]];
    }
  }

  /** The device ids of one location, with the location id they are indexed to. */
  datatype Listing = Listing(ids: seq<string>, id: int)

  function Listings(locations: seq<Location>): (r: seq<Listing>)
    ensures |r| == |locations|
    ensures forall i :: 0 <= i < |r| ==> r[i] == Listing(DeviceIds(locations[i].deviceid), locations[i].id)
  {
    seq(|locations|, i requires 0 <= i < |locations| => Listing(DeviceIds(locations[i].deviceid), locations[i].id))
  }

  /** The listings assigned one after the other into an empty index. */
  function Index(listings: seq<Listing>): map<string, int>
  {
    if |listings| == 0 then map[]
    else
      var n := |listings| - 1;
      Assign(Index(listings[..n]), listings[n].ids, listings[n].id)
  }

  /** The index of device ids; a later location overrides an earlier one. */
  function ByDevice(locations: seq<Location>): map<string, int>
  {
    Index(Listings(locations))
  }

  /** One more location assigns its device ids over the index of the ones before. */
  lemma ByDeviceStep(locations: seq<Location>, n: nat)
    requires n < |locations|
    ensures ByDevice(locations[..n + 1])
      == Assign(ByDevice(locations[..n]), DeviceIds(locations[n].deviceid), locations[n].id)
  {
    var all := Listings(locations[..n + 1]);
    assert all[..n] == Listings(locations[..n]);
  }

  /**
    `get_locations_by_deviceid`, with the locations in the order the query
    returns them. The source walks the keys of a dict keyed by location id, so
    the ids are taken to be distinct (a repeated id is visited once there).
   */
  method LocationsByDeviceid(locations: seq<Location>) returns (m: map<string, int>)
    ensures m == ByDevice(locations)
  {
    m := map[];
    var n := 0;
    while n < |locations|
      invariant 0 <= n <= |locations|
      invariant m == ByDevice(locations[..n])
    {
      var l := locations[n];
      ByDeviceStep(locations, n);
      if l.deviceid.Some? && l.deviceid.value != "" {
        m := AssignPieces(m, l.deviceid.value, l.id);
      }
      n := n + 1;
    }
    assert locations[..|locations|] == locations;
  }

  /** The body for one location with a non-empty device id field: each piece, or the whole text, gets `v`. */
  method AssignPieces(before: map<string, int>, text: string, v: int) returns (m: map<string, int>)
    requires text != ""
    ensures m == Assign(before, DeviceIds(Some(text)), v)
  {
    if ',' in text {
      var ids := Split(text, ',');
      m := before;
      var k := 0;
      while k < |ids|
        invariant 0 <= k <= |ids|
        invariant m == Assign(before, ids[..k], v)
      {
        assert ids[..k + 1][..k] == ids[..k];
        m := m[ids[k] := v];
        k := k + 1;
      }
      assert ids[..|ids|] == ids;
    } else {
      SplitSingle(text, ',');
      m := before[text := v];
      assert [text][..0] == [];
    }
  }

  lemma {:induction false} IndexKeys(listings: seq<Listing>, d: string)
    ensures d in Index(listings) <==> exists i :: 0 <= i < |listings| && d in listings[i].ids
    decreases |listings|
  {
    if |listings| > 0 {
      var n := |listings| - 1;
      var init := listings[..n];
      IndexKeys(init, d);
      AssignKeys(Index(init), listings[n].ids, listings[n].id, d);
      if d in Index(init) {
        var i :| 0 <= i < |init| && d in init[i].ids;
        assert listings[i] == init[i];
      }
      if exists i :: 0 <= i < |listings| && d in listings[i].ids {
        var i :| 0 <= i < |listings| && d in listings[i].ids;
        if i < n {
          assert init[i] == listings[i];
        }
      }
    }
  }

  lemma {:induction false} IndexLastWins(listings: seq<Listing>, d: string)
    requires d in Index(listings)
    ensures exists i :: (0 <= i < |listings| && d in listings[i].ids && Index(listings)[d] == listings[i].id
      && forall j :: i < j < |listings| ==> d !in listings[j].ids)
    decreases |listings|
  {
    var n := |listings| - 1;
    var init := listings[..n];
    AssignKeys(Index(init), listings[n].ids, listings[n].id, d);
    if d !in listings[n].ids {
      IndexLastWins(init, d);
      var i :| 0 <= i < |init| && d in init[i].ids && Index(init)[d] == init[i].id
        && forall j :: i < j < |init| ==> d !in init[j].ids;
      assert listings[i] == init[i];
      forall j | i < j < |listings|
        ensures d !in listings[j].ids
      {
        if j < n {
          assert listings[j] == init[j];
        }
      }
    }
  }

  /** Location `l` lists device id `d` in its `deviceid` column. */
  predicate Lists(l: Location, d: string)
  {
    d in DeviceIds(l.deviceid)
  }

  /** Only listed device ids are keys, and every listed one is. */
  lemma ByDeviceKeys(locations: seq<Location>, d: string)
    ensures d in ByDevice(locations) <==> exists i :: 0 <= i < |locations| && Lists(locations[i], d)
  {
    var listings := Listings(locations);
    IndexKeys(listings, d);
    if exists i :: 0 <= i < |listings| && d in listings[i].ids {
      var i :| 0 <= i < |listings| && d in listings[i].ids;
      assert Lists(locations[i], d);
    }
    if exists i :: 0 <= i < |locations| && Lists(locations[i], d) {
      var i :| 0 <= i < |locations| && Lists(locations[i], d);
      assert d in listings[i].ids;
    }
  }

  /** A device id maps to the id of the last location listing it. */
  lemma ByDeviceLastWins(locations: seq<Location>, d: string)
    requires d in ByDevice(locations)
    ensures exists i :: (0 <= i < |locations| && Lists(locations[i], d)
      && ByDevice(locations)[d] == locations[i].id
      && forall j :: i < j < |locations| ==> !Lists(locations[j], d))
  {
    var listings := Listings(locations);
    IndexLastWins(listings, d);
    var i :| 0 <= i < |listings| && d in listings[i].ids && Index(listings)[d] == listings[i].id
      && forall j :: i < j < |listings| ==> d !in listings[j].ids;
    assert Lists(locations[i], d);
    forall j | i < j < |locations|
      ensures !Lists(locations[j], d)
    {
      assert d !in listings[j].ids;
    }
  }

  /** A region: parent location 1 and level "region". */
  predicate IsRegion(l: Location)
  {
    l.parent == Some(1) && l.level == "region"
  }

  /** A district: a parent among the regions and level "district". */
  predicate IsDistrict(l: Location, regions: seq<int>)
  {
    l.parent.Some? && l.parent.value in regions && l.level == "district"
  }

  function RegionIds(locations: seq<Location>): seq<int>
  {
    if |locations| == 0 then []
    else
      var n := |locations| - 1;
      RegionIds(locations[..n]) + (if IsRegion(locations[n]) then [locations[n].id] else [])
  }

  function DistrictIds(locations: seq<Location>, regions: seq<int>): seq<int>
  {
    if |locations| == 0 then []
    else
      var n := |locations| - 1;
      DistrictIds(locations[..n], regions) + (if IsDistrict(locations[n], regions) then [locations[n].id] else [])
  }

  /**
    `get_regions_districts`: a pass collecting regions, then a pass collecting
    their districts. As above, the locations stand for the values of a dict
    keyed by id, so their ids are taken to be distinct.
   */
  method RegionsDistricts(locations: seq<Location>) returns (regions: seq<int>, districts: seq<int>)
    ensures regions == RegionIds(locations)
    ensures districts == DistrictIds(locations, regions)
  {
    regions := [];
    var n := 0;
    while n < |locations|
      invariant 0 <= n <= |locations|
      invariant regions == RegionIds(locations[..n])
    {
      assert locations[..n + 1][..n] == locations[..n];
      if locations[n].parent == Some(1) && locations[n].level == "region" {
        regions := regions + [locations[n].id];
      }
      n := n + 1;
    }
    assert locations[..|locations|] == locations;
    districts := [];
    n := 0;
    while n < |locations|
      invariant 0 <= n <= |locations|
      invariant districts == DistrictIds(locations[..n], regions)
    {
      assert locations[..n + 1][..n] == locations[..n];
      var p := locations[n].parent;
      if p.Some? && p.value in regions && locations[n].level == "district" {
        districts := districts + [locations[n].id];
      }
      n := n + 1;
    }
  }

  /** The regions are exactly the ids of region locations. */
  lemma {:induction false} RegionMembers(locations: seq<Location>, x: int)
    ensures x in RegionIds(locations) <==> exists i :: 0 <= i < |locations| && locations[i].id == x && IsRegion(locations[i])
    decreases |locations|
  {
    if |locations| > 0 {
      var n := |locations| - 1;
      RegionMembers(locations[..n], x);
      if exists i :: 0 <= i < |locations| && locations[i].id == x && IsRegion(locations[i]) {
        var i :| 0 <= i < |locations| && locations[i].id == x && IsRegion(locations[i]);
        if i < n {
          assert locations[..n][i] == locations[i];
        }
      }
      if exists i :: 0 <= i < n && locations[..n][i].id == x && IsRegion(locations[..n][i]) {
        var i :| 0 <= i < n && locations[..n][i].id == x && IsRegion(locations[..n][i]);
        assert locations[i] == locations[..n][i];
      }
    }
  }

  /** The districts are exactly the ids of district locations whose parent is a region. */
  lemma {:induction false} DistrictMembers(locations: seq<Location>, regions: seq<int>, x: int)
    ensures x in DistrictIds(locations, regions) <==>
      exists i :: 0 <= i < |locations| && locations[i].id == x && IsDistrict(locations[i], regions)
    decreases |locations|
  {
    if |locations| > 0 {
      var n := |locations| - 1;
      DistrictMembers(locations[..n], regions, x);
      if exists i :: 0 <= i < |locations| && locations[i].id == x && IsDistrict(locations[i], regions) {
        var i :| 0 <= i < |locations| && locations[i].id == x && IsDistrict(locations[i], regions);
        if i < n {
          assert locations[..n][i] == locations[i];
        }
      }
      if exists i :: 0 <= i < n && locations[..n][i].id == x && IsDistrict(locations[..n][i], regions) {
        var i :| 0 <= i < n && locations[..n][i].id == x && IsDistrict(locations[..n][i], regions);
        assert locations[i] == locations[..n][i];
      }
    }
  }

  /** The locations the query returns: all, or only the case-reporting ones. */
  function Selected(locations: seq<Location>, caseReport: bool): seq<Location>
  {
    if |locations| == 0 then []
    else
      var n := |locations| - 1;
      Selected(locations[..n], caseReport)
        + (if !caseReport || locations[n].caseReport == 1 then [locations[n]] else [])
  }

  /** The device ids of the locations, in order. */
  function AllDeviceIds(locations: seq<Location>): seq<string>
  {
    if |locations| == 0 then []
    else
      var n := |locations| - 1;
      AllDeviceIds(locations[..n]) + DeviceIds(locations[n].deviceid)
  }

  /**
    `get_deviceids(session, case_report)`: the query's rows (all locations, or
    the case-reporting ones) and, for each row with device ids, its
    comma-separated pieces in order.
   */
  method DeviceidList(locations: seq<Location>, caseReport: bool) returns (ids: seq<string>)
    ensures ids == AllDeviceIds(Selected(locations, caseReport))
  {
    var result := Selected(locations, caseReport);
    ids := [];
    var n := 0;
    while n < |result|
      invariant 0 <= n <= |result|
      invariant ids == AllDeviceIds(result[..n])
    {
      assert result[..n + 1][..n] == result[..n];
      var r := result[n];
      if r.deviceid.Some? && r.deviceid.value != "" {
        ids := AppendPieces(ids, r.deviceid.value);
      }
      n := n + 1;
    }
    assert result[..|result|] == result;
  }

  /** The body for one row with a non-empty device id field: its pieces, or the whole text, appended. */
  method AppendPieces(before: seq<string>, text: string) returns (ids: seq<string>)
    requires text != ""
    ensures ids == before + DeviceIds(Some(text))
  {
    if ',' in text {
      var pieces := Split(text, ',');
      ids := before;
      var k := 0;
      while k < |pieces|
        invariant 0 <= k <= |pieces|
        invariant ids == before + pieces[..k]
      {
        assert pieces[..k + 1] == pieces[..k] + [pieces[k]];
        ids := ids + [pieces[k]];
        k := k + 1;
      }
      assert pieces[..|pieces|] == pieces;
    } else {
      SplitSingle(text, ',');
      ids := before + [text];
    }
  }

  /**
    The device ids listed for all locations are exactly the keys of the
    index by device id.
   */
  lemma {:induction false} DeviceIdsAreKeys(locations: seq<Location>, d: string)
    ensures d in AllDeviceIds(locations) <==> d in ByDevice(locations)
    decreases |locations|
  {
    if |locations| > 0 {
      var n := |locations| - 1;
      DeviceIdsAreKeys(locations[..n], d);
      ByDeviceStep(locations, n);
      assert locations[..n + 1] == locations;
      AssignKeys(ByDevice(locations[..n]), DeviceIds(locations[n].deviceid), locations[n].id, d);
    }
  }

  /** Without the case-report flag every location is selected. */
  lemma {:induction false} SelectedAll(locations: seq<Location>)
    ensures Selected(locations, false) == locations
    decreases |locations|
  {
    if |locations| > 0 {
      var n := |locations| - 1;
      SelectedAll(locations[..n]);
      assert locations[..n] + [locations[n]] == locations;
    }
  }
}
