/**
  The `Variable` rule: building it from an aggregation-variable definition
  (`method`, `condition`, `db_column`, `calculation`), and testing a data row
  against it. Building rejects malformed definitions with the exception the
  constructor raises and otherwise picks one of four shapes: a `value` rule, a
  `calc` rule, one primitive test, or several tests combined with `&`/`|`.
 */
module Variable {
  import opened Wrappers
  import opened Text
  import opened Py
  import Arith
  import Logic
  import EpiWeek
  import Civil

  /** The test types a `method` may name. */
  datatype Kind = Match | SubMatch | Between | ValueKind | NotNull | CalcKind

  /** An aggregation-variable definition; `calculation` may be `None`. */
  datatype Definition = Definition(methodText: string, condition: string, dbColumn: string, calculation: Option<string>)

  /** One `;`-clause of `db_column`: a column name, or a list of names when the clause held a comma. */
  datatype Column = One(name: string) | Several(names: seq<string>)

  /** A calculation text handed to `eval`: its arithmetic, or a text Python cannot parse. */
  datatype Formula = Parsed(e: Arith.Expr) | Unparsable

  /** What Python's parser makes of a calculation text (an input of the model). */
  type Parser = string -> Formula

  /**
    What the environment supplies: `dateutil.parser.parse(s).isoformat()`
    (`None` when it raises), the seconds from 1970-01-01 of the first of the
    accepted `strptime` formats that reads `s` (`None` when none does), and
    the `epi_week` setting of the country configuration.
   */
  datatype Env = Env(isoDate: string -> Option<string>, timestamp: string -> Option<real>, calendar: EpiWeek.Config)

  /** A primitive test bound to its column(s), condition and calculation. */
  datatype Primitive =
    | MatchTest(column: Column, condition: seq<string>)
    | SubMatchTest(column: Column, condition: seq<string>)
    | BetweenTest(columns: seq<string>, condition: seq<string>, formula: Formula)
    | NotNullTest(column: Column)

  /**
    A built variable. A multi-test rule keeps what the object keeps: the test
    types, conditions and columns per test, the per-test calculations (absent
    when the definition had no calculation; `None` in the slot of a test that is
    not `between`) and the compiled boolean expression.
   */
  datatype Rule =
    | ValueRule(column: Column, calculation: Option<string>)
    | CalcRule(names: seq<string>, formula: Formula)
    | SingleRule(test: Primitive)
    | ManyRule(kinds: seq<Kind>, conditions: seq<seq<string>>, columns: seq<Column>,
               calcs: Option<seq<Option<Formula>>>, expr: Logic.Expr)

  /** What `test(row)` returns: a truth value, a float, or a raw cell. */
  datatype Outcome = Flag(b: bool) | Number(x: real) | Raw(v: Value)

  // ---------------------------------------------------------------- building

  function KindOf(t: string): Option<Kind>
  {
    if t == "match" then Some(Match)
    else if t == "sub_match" then Some(SubMatch)
    else if t == "between" then Some(Between)
    else if t == "value" then Some(ValueKind)
    else if t == "not_null" then Some(NotNull)
    else if t == "calc" then Some(CalcKind)
    else None
  }

  /** The connectives `bool_trans` knows. */
  function ConnOf(t: string): Option<Logic.Conn>
  {
    if t == "and" then Some(Logic.And) else if t == "or" then Some(Logic.Or) else None
  }

  /** Token `t` at position `i` of the method passes the constructor's checks. */
  predicate ValidToken(i: nat, t: string)
  {
    if i % 2 == 0 then KindOf(t).Some? else ConnOf(t).Some?
  }

  /**
    The exception a bad token at position `i` raises: a wrong test type or a
    wrong connective is a `NameError`; "not" passes the membership check but
    has no entry in `bool_trans`, a `KeyError`.
   */
  function TokenError(i: nat, t: string): Exc
  {
    if i % 2 == 0 then NameError(WrongTestType)
    else if t == "not" then KeyError
    else NameError(WrongLogicType)
  }

  datatype Scanned = Scanned(kinds: seq<Kind>, ops: seq<Logic.Conn>)

  /**
    The token loop of the constructor, as a function of the tokens read so
    far: the test types and connectives collected, or the exception of the
    first bad token.
   */
  function Scan(tokens: seq<string>): (r: Result<Scanned, Exc>)
    ensures r.Ok? <==> forall i :: 0 <= i < |tokens| ==> ValidToken(i, tokens[i])
    ensures r.Ok? ==> |r.value.kinds| == (|tokens| + 1) / 2 && |r.value.ops| == |tokens| / 2
    ensures r.Ok? ==> forall k :: 0 <= k < |r.value.kinds| ==> KindOf(tokens[2 * k]) == Some(r.value.kinds[k])
    ensures r.Ok? ==> forall k :: 0 <= k < |r.value.ops| ==> ConnOf(tokens[2 * k + 1]) == Some(r.value.ops[k])
    ensures r.Err? ==> exists i :: (0 <= i < |tokens| && !ValidToken(i, tokens[i])
      && (forall j :: 0 <= j < i ==> ValidToken(j, tokens[j])) && r.error == TokenError(i, tokens[i]))
    decreases |tokens|
  {
    if |tokens| == 0 then Ok(Scanned([], []))
    else
      var i := |tokens| - 1;
      var t := tokens[i];
      assert forall j :: 0 <= j < i ==> tokens[..i][j] == tokens[j];
      match Scan(tokens[..i])
      case Err(e) => Err(e)
      case Ok(sc) =>
        if i % 2 == 0 then
          match KindOf(t)
          case Some(k) => Ok(sc.(kinds := sc.kinds + [k]))
          case None => Err(NameError(WrongTestType))
        else
          match ConnOf(t)
          case Some(c) => Ok(sc.(ops := sc.ops + [c]))
          case None => Err(TokenError(i, t))
  }

  /**
    A `condition` clause: its stripped comma-separated parts, or the raw clause
    alone. No part holds a comma; with a comma there is one part per piece of
    the split, each already stripped.
   */
  function ConditionOf(clause: string): (r: seq<string>)
    ensures |r| >= 1
    ensures forall k :: 0 <= k < |r| ==> ',' !in r[k]
    ensures ',' in clause ==> |r| == |Split(clause, ',')| && forall k :: 0 <= k < |r| ==> Strip(r[k]) == r[k]
    ensures ',' in clause ==> forall k :: 0 <= k < |r| ==> r[k] == Strip(Split(clause, ',')[k])
    ensures ',' !in clause ==> r == [clause]
  {
    if ',' in clause then
      StrippedPieces(clause, ',');
      StripAll(Split(clause, ','))
    else [clause]
  }

  /** A `db_column` clause: a list of stripped names when it holds a comma, else the raw name. */
  function ColumnOf(clause: string): Column
  {
    if ',' in clause then Several(StripAll(Split(clause, ','))) else One(clause)
  }

  /** `[c] if not isinstance(c, list) else c`. */
  function Listify(c: Column): seq<string>
  {
    match c
    case One(n) => [n]
    case Several(ns) => ns
  }

  /** The calculation is present and not empty (Python's truth value of it). */
  predicate HasText(calculation: Option<string>)
  {
    calculation.Some? && calculation.value != ""
  }

  /**
    The constructor's loop over the `;`-parts of a multi-test calculation, after
    `i` parts: a part in the slot of a `between` test is parsed and that test's
    column clause becomes a list; other slots get `None`. A part beyond the
    last test, or a `between` slot without a column clause, is an `IndexError`.
   */
  function CalcSlots(kinds: seq<Kind>, columns: seq<Column>, parts: seq<string>, parse: Parser, i: nat)
    : (r: Result<(seq<Column>, seq<Option<Formula>>), Exc>)
    requires i <= |parts|
    ensures r.Ok? ==> |r.value.0| == |columns| && |r.value.1| == i
    ensures r.Err? ==> r.error == IndexError
    decreases i
  {
    if i == 0 then Ok((columns, []))
    else
      match CalcSlots(kinds, columns, parts, parse, i - 1)
      case Err(e) => Err(e)
      case Ok(p) =>
        var k := i - 1;
        if k >= |kinds| then Err(IndexError)
        else if kinds[k] != Between then Ok((p.0, p.1 + [None]))
        else if k >= |p.0| then Err(IndexError)
        else Ok((p.0[k := Several(Listify(p.0[k]))], p.1 + [Some(parse(parts[k]))]))
  }

  /** The choice of shape once tokens, conditions and columns have been read. */
  function Shape(sc: Scanned, conditions: seq<seq<string>>, columns: seq<Column>,
                 calculation: Option<string>, parse: Parser): Result<Rule, Exc>
    requires |sc.kinds| >= 1 && |conditions| >= 1 && |columns| >= 1
  {
    var kinds := sc.kinds;
    if ValueKind in kinds then
      if |kinds| > 1 then Err(NameError(ValueNotAlone)) else Ok(ValueRule(columns[0], calculation))
    else if CalcKind in kinds then
      if |kinds| > 1 then Err(NameError(CalcNotAlone))
      else if calculation.None? then Err(AttributeError)
      else Ok(CalcRule(Listify(columns[0]), parse(calculation.value)))
    else if |kinds| == 1 then
      if kinds[0] == Match then Ok(SingleRule(MatchTest(columns[0], conditions[0])))
      else if kinds[0] == SubMatch then Ok(SingleRule(SubMatchTest(columns[0], conditions[0])))
      else if kinds[0] == Between then
        if calculation.None? then Err(AttributeError)
        else Ok(SingleRule(BetweenTest(Listify(columns[0]), conditions[0], parse(calculation.value))))
      else Ok(SingleRule(NotNullTest(columns[0])))
    else if HasText(calculation) then
      var parts := Split(calculation.value, ';');
      match CalcSlots(kinds, columns, parts, parse, |parts|)
      case Err(e) => Err(e)
      case Ok(p) => Ok(ManyRule(kinds, conditions, p.0, Some(p.1), Logic.Parse(sc.ops)))
    else Ok(ManyRule(kinds, conditions, columns, None, Logic.Parse(sc.ops)))
  }

  /** The condition lists of the `;`-clauses. */
  function Conditions(clauses: seq<string>): (r: seq<seq<string>>)
    ensures |r| == |clauses| && forall k :: 0 <= k < |r| ==> r[k] == ConditionOf(clauses[k])
  {
    seq(|clauses|, k requires 0 <= k < |clauses| => ConditionOf(clauses[k]))
  }

  /** The column clauses of the `;`-entries. */
  function Columns(entries: seq<string>): (r: seq<Column>)
    ensures |r| == |entries| && forall k :: 0 <= k < |r| ==> r[k] == ColumnOf(entries[k])
  {
    seq(|entries|, k requires 0 <= k < |entries| => ColumnOf(entries[k]))
  }

  /** `Variable(definition)`, as a function of the definition: the built rule or the exception raised. */
  function Build(d: Definition, parse: Parser): Result<Rule, Exc>
  {
    var tokens := Split(d.methodText, ' ');
    match Scan(tokens)
    case Err(e) => Err(e)
    case Ok(sc) =>
      if |tokens| % 2 == 0 then Err(SyntaxError)
      else
        var conditions := Conditions(Split(d.condition, ';'));
        var columns := Columns(Split(d.dbColumn, ';'));
        if |conditions| != |sc.kinds| then Err(TypeError)
        else Shape(sc, conditions, columns, d.calculation, parse)
  }

  /** The rule's boolean expression only refers to tests it has. */
  predicate WellFormed(rule: Rule)
  {
    rule.ManyRule? ==> Logic.Bound(rule.expr) <= |rule.kinds|
  }

  /** The first bad token decides the exception of the scan. */
  lemma ScanFirstBad(tokens: seq<string>, i: nat)
    requires i < |tokens| && !ValidToken(i, tokens[i])
    requires forall j :: 0 <= j < i ==> ValidToken(j, tokens[j])
    ensures Scan(tokens) == Err(TokenError(i, tokens[i]))
  {
    var r := Scan(tokens);
    var i' :| 0 <= i' < |tokens| && !ValidToken(i', tokens[i'])
      && (forall j :: 0 <= j < i' ==> ValidToken(j, tokens[j])) && r.error == TokenError(i', tokens[i']);
    assert i' == i;
  }

  /** One more valid token adds its test type or its connective to the scan. */
  lemma ScanExtend(tokens: seq<string>, i: nat, sc: Scanned)
    requires i < |tokens| && Scan(tokens[..i]) == Ok(sc) && ValidToken(i, tokens[i])
    ensures Scan(tokens[..i + 1]) == Ok(if i % 2 == 0 then sc.(kinds := sc.kinds + [KindOf(tokens[i]).value])
                                       else sc.(ops := sc.ops + [ConnOf(tokens[i]).value]))
  {
    var p := tokens[..i + 1];
    assert p[..i] == tokens[..i];
    ScanLast(p, sc);
  }

  lemma ScanLast(tokens: seq<string>, sc: Scanned)
    requires |tokens| > 0 && Scan(tokens[..|tokens| - 1]) == Ok(sc)
    requires ValidToken(|tokens| - 1, tokens[|tokens| - 1])
    ensures var i := |tokens| - 1;
      Scan(tokens) == Ok(if i % 2 == 0 then sc.(kinds := sc.kinds + [KindOf(tokens[i]).value])
                         else sc.(ops := sc.ops + [ConnOf(tokens[i]).value]))
  {
  }

  /** The constructor's loop over the method tokens, collecting test types and connectives. */
  method ScanTokens(tokens: seq<string>) returns (r: Result<Scanned, Exc>)
    ensures r == Scan(tokens)
  {
    var kinds: seq<Kind> := [];
    var ops: seq<Logic.Conn> := [];
    var i := 0;
    while i < |tokens|
      invariant 0 <= i <= |tokens|
      invariant Scan(tokens[..i]) == Ok(Scanned(kinds, ops))
      invariant forall j :: 0 <= j < i ==> ValidToken(j, tokens[j])
    {
      var t := tokens[i];
      if i % 2 == 0 {
        var k := KindOf(t);
        if k.None? {
          ScanFirstBad(tokens, i);
          return Err(NameError(WrongTestType));
        }
        ScanExtend(tokens, i, Scanned(kinds, ops));
        kinds := kinds + [k.value];
      } else {
        var c := ConnOf(t);
        if c.None? {
          ScanFirstBad(tokens, i);
          return Err(if t == "not" then KeyError else NameError(WrongLogicType));
        }
        ScanExtend(tokens, i, Scanned(kinds, ops));
        ops := ops + [c.value];
      }
      i := i + 1;
    }
    assert tokens[..|tokens|] == tokens;
    return Ok(Scanned(kinds, ops));
  }

  /** The constructor's loop building `self.conditions`. */
  method ReadConditions(clauses: seq<string>) returns (conditions: seq<seq<string>>)
    ensures conditions == Conditions(clauses)
  {
    conditions := [];
    var j := 0;
    while j < |clauses|
      invariant 0 <= j <= |clauses|
      invariant conditions == Conditions(clauses[..j])
    {
      var clause := clauses[j];
      ConditionsStep(clauses, j);
      conditions := conditions + [ConditionOf(clause)];
      j := j + 1;
    }
    assert clauses[..j] == clauses;
  }

  lemma ConditionsStep(clauses: seq<string>, j: nat)
    requires j < |clauses|
    ensures Conditions(clauses[..j + 1]) == Conditions(clauses[..j]) + [ConditionOf(clauses[j])]
  {
  }

  /** The constructor's loop building `self.columns`. */
  method ReadColumns(entries: seq<string>) returns (columns: seq<Column>)
    ensures columns == Columns(entries)
  {
    columns := [];
    var j := 0;
    while j < |entries|
      invariant 0 <= j <= |entries|
      invariant |columns| == j && forall k :: 0 <= k < j ==> columns[k] == ColumnOf(entries[k])
    {
      var entry := entries[j];
      columns := columns + [ColumnOf(entry)];
      j := j + 1;
    }
  }

  /** The constructor's loop over the parts of a multi-test calculation. */
  method ReadCalcSlots(kinds: seq<Kind>, columns: seq<Column>, parts: seq<string>, parse: Parser)
    returns (r: Result<(seq<Column>, seq<Option<Formula>>), Exc>)
    ensures r == CalcSlots(kinds, columns, parts, parse, |parts|)
  {
    var calcs: seq<Option<Formula>> := [];
    var cols := columns;
    var n := 0;
    while n < |parts|
      invariant 0 <= n <= |parts|
      invariant CalcSlots(kinds, columns, parts, parse, n) == Ok((cols, calcs))
    {
      if n >= |kinds| {
        CalcSlotsErrorSticks(kinds, columns, parts, parse, n + 1);
        return Err(IndexError);
      }
      if kinds[n] == Between {
        if n >= |cols| {
          CalcSlotsErrorSticks(kinds, columns, parts, parse, n + 1);
          return Err(IndexError);
        }
        cols := cols[n := Several(Listify(cols[n]))];
        calcs := calcs + [Some(parse(parts[n]))];
      } else {
        calcs := calcs + [None];
      }
      n := n + 1;
    }
    return Ok((cols, calcs));
  }

  lemma {:induction false} CalcSlotsErrorSticks(kinds: seq<Kind>, columns: seq<Column>, parts: seq<string>,
                                                 parse: Parser, i: nat)
    requires i <= |parts| && CalcSlots(kinds, columns, parts, parse, i).Err?
    ensures CalcSlots(kinds, columns, parts, parse, |parts|) == CalcSlots(kinds, columns, parts, parse, i)
    decreases |parts| - i
  {
    if i < |parts| {
      CalcSlotsErrorSticks(kinds, columns, parts, parse, i + 1);
    }
  }

  /** After the loops: the `value`/`calc` checks, then the single-test and multi-test shapes. */
  method PickShape(sc: Scanned, conditions: seq<seq<string>>, columns: seq<Column>,
                   calculation: Option<string>, parse: Parser) returns (r: Result<Rule, Exc>)
    requires |sc.kinds| >= 1 && |conditions| >= 1 && |columns| >= 1
    ensures r == Shape(sc, conditions, columns, calculation, parse)
  {
    var kinds := sc.kinds;
    if ValueKind in kinds {
      if |kinds| > 1 {
        return Err(NameError(ValueNotAlone));
      }
      return Ok(ValueRule(columns[0], calculation));
    } else if CalcKind in kinds {
      if |kinds| > 1 {
        return Err(NameError(CalcNotAlone));
      }
      if calculation.None? {
        return Err(AttributeError);
      }
      return Ok(CalcRule(Listify(columns[0]), parse(calculation.value)));
    } else if |kinds| == 1 {
      var tt := kinds[0];
      if tt == Match {
        r := Ok(SingleRule(MatchTest(columns[0], conditions[0])));
      } else if tt == SubMatch {
        r := Ok(SingleRule(SubMatchTest(columns[0], conditions[0])));
      } else if tt == Between {
        if calculation.None? {
          return Err(AttributeError);
        }
        r := Ok(SingleRule(BetweenTest(Listify(columns[0]), conditions[0], parse(calculation.value))));
      } else {
        r := Ok(SingleRule(NotNullTest(columns[0])));
      }
      return r;
    }
    var expr := Logic.Parse(sc.ops);
    if !HasText(calculation) {
      return Ok(ManyRule(kinds, conditions, columns, None, expr));
    }
    var slots := ReadCalcSlots(kinds, columns, Split(calculation.value, ';'), parse);
    if slots.Err? {
      return Err(slots.error);
    }
    return Ok(ManyRule(kinds, conditions, slots.value.0, Some(slots.value.1), expr));
  }

  /** A built multi-test rule has one connective fewer than tests, so its expression fits its tests. */
  lemma ShapeWellFormed(sc: Scanned, conditions: seq<seq<string>>, columns: seq<Column>,
                        calculation: Option<string>, parse: Parser)
    requires |sc.kinds| >= 1 && |conditions| >= 1 && |columns| >= 1 && |sc.ops| + 1 == |sc.kinds|
    ensures Shape(sc, conditions, columns, calculation, parse).Ok? ==>
      WellFormed(Shape(sc, conditions, columns, calculation, parse).value)
  {
  }

  /**
    The constructor: reads the method tokens, then the condition and column
    clauses, then picks the shape; the result is the definition's `Build`.
   */
  method Compile(d: Definition, parse: Parser) returns (r: Result<Rule, Exc>)
    ensures r == Build(d, parse)
    ensures r.Ok? ==> WellFormed(r.value)
  {
    var tokens := Split(d.methodText, ' ');
    var scanned := ScanTokens(tokens);
    if scanned.Err? {
      return Err(scanned.error);
    }
    if |tokens| % 2 == 0 {
      return Err(SyntaxError);
    }
    var conditions := ReadConditions(Split(d.condition, ';'));
    var columns := ReadColumns(Split(d.dbColumn, ';'));
    if |conditions| != |scanned.value.kinds| {
      return Err(TypeError);
    }
    ShapeWellFormed(scanned.value, conditions, columns, d.calculation, parse);
    r := PickShape(scanned.value, conditions, columns, d.calculation, parse);
  }

  // ---------------------------------------------------------------- testing

  /**
    `test_match`: the cell is text listed in the condition; a missing column or
    a list of columns gives 0, and so does a cell that is not text. An exact
    match is also a sub-match.
   */
  function MatchHolds(column: Column, condition: seq<string>, row: Row): (m: bool)
    ensures !(column.One? && column.name in row) ==> !m
    ensures column.One? && column.name in row && !row[column.name].Str? ==> !m
    ensures m ==> SubMatchHolds(column, condition, row)
  {
    column.One? && column.name in row && row[column.name].Str? && row[column.name].s in condition
  }

  /**
    The `for c in condition` scan of `test_sub_match` on a truthy cell: some
    element occurs in the text, or is an element of the list; on a number the
    first `c in value` raises `TypeError`, which is swallowed.
   */
  predicate SomeElementIn(v: Value, condition: seq<string>)
  {
    match v
    case Str(s) => exists k :: 0 <= k < |condition| && Contains(s, condition[k])
    case List(items) => exists k :: 0 <= k < |condition| && Str(condition[k]) in items
    case _ => false
  }

  /**
    `test_sub_match`: the cell is listed, or it is truthy and some condition
    element occurs in it. A missing column, a list of columns, a number and
    `None` never sub-match; on a list cell it is membership of some element.
   */
  function SubMatchHolds(column: Column, condition: seq<string>, row: Row): (b: bool)
    ensures !(column.One? && column.name in row) ==> !b
    ensures column.One? && column.name in row && (row[column.name].Int? || row[column.name].Real? || row[column.name].Null?) ==> !b
    ensures column.One? && column.name in row && row[column.name].List? ==>
      (b <==> exists k :: 0 <= k < |condition| && Str(condition[k]) in row[column.name].items)
  {
    column.One? && column.name in row &&
    var v := row[column.name];
    (v.Str? && v.s in condition) || (Truthy(v) && SomeElementIn(v, condition))
  }

  /** `test_not_null`: a list of columns cannot be looked up (`TypeError`); a missing column gives 0. */
  function NotNullResult(column: Column, row: Row): (r: Result<bool, Exc>)
    ensures column.Several? <==> r.Err?
    ensures r.Err? ==> r.error == TypeError
    ensures column.One? ==> (r == Ok(true) <==> column.name in row && !IsBlank(row[column.name]))
  {
    match column
    case Several(_) => Err(TypeError)
    case One(n) => if n !in row then Ok(false) else Ok(!IsBlank(row[n]))
  }

  /** `float(text)` of a condition bound. */
  function Bound(text: string): Result<real, Exc>
  {
    match ParseNumber(text)
    case Some(x) => Ok(x)
    case None => Err(ValueError)
  }

  /** The guard of `test_calc_between`: every referenced column is present and truthy. */
  predicate AllPresent(columns: seq<string>, row: Row)
  {
    forall k :: 0 <= k < |columns| ==> columns[k] in row && Truthy(row[columns[k]])
  }

  /**
    `test_calc_between`: 0 unless every column is present and truthy; then the
    calculation's value against `float(condition[0]) <= x < float(condition[1])`,
    the upper bound read only when the lower one holds. `calculation == None` is the
    `eval(None)` of a slot with no calculation text.
   */
  function BetweenResult(columns: seq<string>, condition: seq<string>, calculation: Option<Formula>, row: Row)
    : (r: Result<bool, Exc>)
    ensures !AllPresent(columns, row) ==> r == Ok(false)
  {
    if !AllPresent(columns, row) then Ok(false)
    else if calculation.None? then Err(TypeError)
    else if calculation.value.Unparsable? then Err(SyntaxError)
    else
      match Arith.Eval(calculation.value.e, columns, row)
      case Err(e) => Err(e)
      case Ok(x) =>
        if |condition| == 0 then Err(IndexError)
        else
          match Bound(condition[0])
          case Err(e) => Err(e)
          case Ok(lo) =>
            if !(lo <= x) then Ok(false)
            else if |condition| < 2 then Err(IndexError)
            else
              match Bound(condition[1])
              case Err(e) => Err(e)
              case Ok(hi) => Ok(hi > x)
  }

  /** A primitive test bound by the constructor. */
  function TestResult(t: Primitive, row: Row): Result<bool, Exc>
  {
    match t
    case MatchTest(c, cond) => Ok(MatchHolds(c, cond, row))
    case SubMatchTest(c, cond) => Ok(SubMatchHolds(c, cond, row))
    case BetweenTest(cols, cond, f) => BetweenResult(cols, cond, Some(f), row)
    case NotNullTest(c) => NotNullResult(c, row)
  }

  /**
    `test_value`: 0 for a missing or blank cell, the ISO form of a text cell
    when the calculation is "date", the cell itself otherwise.
   */
  function ValueResult(column: Column, calculation: Option<string>, row: Row, env: Env): (r: Result<Value, Exc>)
    ensures column.One? && (column.name !in row || IsBlank(row[column.name])) ==> r == Ok(Int(0))
    ensures column.One? && column.name in row && !IsBlank(row[column.name]) && calculation != Some("date")
      ==> r == Ok(row[column.name])
  {
    match column
    case Several(_) => Err(TypeError)
    case One(n) =>
      if n !in row then Ok(Int(0))
      else
        var v := row[n];
        if IsBlank(v) then Ok(Int(0))
        else if calculation == Some("date") then
          if !v.Str? then Err(TypeError)
          else (match env.isoDate(v.s) case Some(iso) => Ok(Str(iso)) case None => Err(ValueError))
        else Ok(v)
  }

  /** The 1970-01-01 day ordinal. */
  function Epoch(): int
  {
    Civil.FromCivil(1970, 1, 1)
  }

  /**
    `(4 + int(epi_week[4:])) % 7` for a "day:<w>" setting: the days from the
    epoch (a Thursday) to the first day on or after it with weekday `w`. For
    "international", `int("rnational")` raises `ValueError`, which the format
    loop swallows (`None`); slicing a dict raises `TypeError`. Other strings
    are taken to fail like "international".
   */
  function EpochOffset(cfg: EpiWeek.Config): (r: Result<Option<int>, Exc>)
    ensures cfg.Custom? <==> r == Err(TypeError)
    ensures cfg.International? || cfg.Other? ==> r == Ok(None)
    ensures cfg.DayOfWeek? ==>
      && r.Ok? && r.value.Some? && 0 <= r.value.value < 7
      && Civil.Weekday(Epoch() + r.value.value) == cfg.day % 7
      && forall d :: Epoch() <= d < Epoch() + r.value.value ==> Civil.Weekday(d) != cfg.day % 7
  {
    match cfg
    case DayOfWeek(w) =>
      FirstWeekdayFromEpoch(w);
      Ok(Some((4 + w) % 7))
    case Custom(_) => Err(TypeError)
    case _ => Ok(None)
  }

  /** 1970-01-01 is a Thursday, so `(4 + w) % 7` days later is the first day with weekday `w`. */
  lemma FirstWeekdayFromEpoch(w: int)
    ensures var off := (4 + w) % 7;
      && Civil.Weekday(Epoch() + off) == w % 7
      && forall d :: Epoch() <= d < Epoch() + off ==> Civil.Weekday(d) != w % 7
  {
    assert Epoch() == 719163;
    var off := (4 + w) % 7;
    assert Civil.Weekday(Epoch() + off) == (3 + off) % 7;
    forall d | Epoch() <= d < Epoch() + off ensures Civil.Weekday(d) != w % 7 {
      assert Civil.Weekday(d) == (3 + (d - Epoch())) % 7;
    }
  }

  /**
    `Variable.to_date`: a non-text value passes through; a text read by one
    of the accepted formats becomes its seconds since the epoch minus the
    `EpochOffset` days, under "day:<w>"; any other text passes through, and so
    does every text under "international".
   */
  function ToDate(v: Value, env: Env): (r: Result<Value, Exc>)
    ensures !v.Str? ==> r == Ok(v)
    ensures r.Ok? && r.value != v ==> v.Str? && r.value.Real?
    ensures v.Str? && env.timestamp(v.s).None? ==> r == Ok(v)
    ensures v.Str? && (env.calendar.International? || env.calendar.Other?) ==> r == Ok(v)
    ensures v.Str? && env.calendar.Custom? && env.timestamp(v.s).Some? ==> r == Err(TypeError)
    ensures v.Str? && env.calendar.DayOfWeek? && env.timestamp(v.s).Some? ==>
      r == Ok(Real(env.timestamp(v.s).value - (EpochOffset(env.calendar).value.value * 86400) as real))
  {
    if !v.Str? then Ok(v)
    else
      match env.timestamp(v.s)
      case None => Ok(v)
      case Some(seconds) =>
        match EpochOffset(env.calendar)
        case Err(e) => Err(e)
        case Ok(None) => Ok(v)
        case Ok(Some(days)) => Ok(Real(seconds - (days * 86400) as real))
  }

  /** One step of the `test_calc` loop: column `c` set to 0 when missing or falsy, then through `to_date`. */
  function PrepareStep(r: Row, c: string, env: Env): Result<Row, Exc>
  {
    var v := if c in r && Truthy(r[c]) then r[c] else Int(0);
    match ToDate(v, env)
    case Err(e) => Err(e)
    case Ok(w) => Ok(r[c := w])
  }

  /** The loop of `test_calc` over its columns, as a function of the columns handled so far. */
  function Prepare(columns: seq<string>, row: Row, env: Env): Result<Row, Exc>
    decreases |columns|
  {
    if |columns| == 0 then Ok(row)
    else
      match Prepare(columns[..|columns| - 1], row, env)
      case Err(e) => Err(e)
      case Ok(r) => PrepareStep(r, columns[|columns| - 1], env)
  }

  /**
    What the loop does to the copy: it gains exactly the referenced columns,
    the other columns keep their cells, a missing or falsy column ends as 0
    and a truthy non-text one keeps its cell.
   */
  lemma {:induction false} PrepareKeeps(columns: seq<string>, row: Row, env: Env)
    ensures var r := Prepare(columns, row, env);
      && (r.Ok? ==> r.value.Keys == row.Keys + set c | c in columns)
      && (r.Ok? ==> forall c :: c in row && c !in columns ==> r.value[c] == row[c])
      && (r.Ok? ==> forall c :: c in columns && (c !in row || !Truthy(row[c])) ==> r.value[c] == Int(0))
      && (r.Ok? ==> forall c :: c in columns && c in row && Truthy(row[c]) && !row[c].Str? ==> r.value[c] == row[c])
    decreases |columns|
  {
    if |columns| > 0 {
      var init := columns[..|columns| - 1];
      var c := columns[|columns| - 1];
      assert columns == init + [c];
      PrepareKeeps(init, row, env);
    }
  }

  /** `test_calc` as a function: the calculation on the prepared copy, 0 on division by zero. */
  function CalcResult(columns: seq<string>, formula: Formula, row: Row, env: Env): Result<real, Exc>
  {
    match Prepare(columns, row, env)
    case Err(e) => Err(e)
    case Ok(r) =>
      if formula.Unparsable? then Err(SyntaxError)
      else
        match Arith.Eval(formula.e, columns, r)
        case Err(ZeroDivisionError) => Ok(0.0)
        case Err(e) => Err(e)
        case Ok(x) => Ok(x)
  }

  /** The loop of `test_calc` on its own copy of the row. */
  method PrepareRow(columns: seq<string>, row: Row, env: Env) returns (r: Result<Row, Exc>)
    ensures r == Prepare(columns, row, env)
  {
    var copy := row;
    var i := 0;
    while i < |columns|
      invariant 0 <= i <= |columns|
      invariant Prepare(columns[..i], row, env) == Ok(copy)
    {
      var c := columns[i];
      assert columns[..i + 1][..i] == columns[..i];
      assert Prepare(columns[..i + 1], row, env) == PrepareStep(copy, c, env);
      var before := copy;
      if c !in copy || !Truthy(copy[c]) {
        copy := copy[c := Int(0)];
      }
      var converted := ToDate(copy[c], env);
      if converted.Err? {
        PrepareErrorSticks(columns, row, env, i + 1);
        return Err(converted.error);
      }
      copy := copy[c := converted.value];
      assert copy == before[c := converted.value];
      i := i + 1;
    }
    assert columns[..|columns|] == columns;
    return Ok(copy);
  }

  /**
    `test_calc`: prepares a copy of the row (0 for a missing or falsy column,
    then `to_date`) and evaluates the calculation; a division by zero gives 0.
   */
  method TestCalc(columns: seq<string>, formula: Formula, row: Row, env: Env) returns (r: Result<real, Exc>)
    ensures r == CalcResult(columns, formula, row, env)
  {
    var copy := PrepareRow(columns, row, env);
    if copy.Err? {
      return Err(copy.error);
    }
    if formula.Unparsable? {
      return Err(SyntaxError);
    }
    var result := Arith.Eval(formula.e, columns, copy.value);
    if result == Err(ZeroDivisionError) {
      return Ok(0.0);
    }
    return result;
  }

  /** Once a prefix of the columns fails to convert, the whole loop fails with that error. */
  lemma {:induction false} PrepareErrorSticks(columns: seq<string>, row: Row, env: Env, i: nat)
    requires i <= |columns| && Prepare(columns[..i], row, env).Err?
    ensures Prepare(columns, row, env) == Prepare(columns[..i], row, env)
    decreases |columns| - i
  {
    if i < |columns| {
      assert columns[..i + 1][..i] == columns[..i];
      PrepareErrorSticks(columns, row, env, i + 1);
    } else {
      assert columns[..i] == columns;
    }
  }

  /**
    Slot `i` of `test_many`: the test of type `kinds[i]` on column clause
    `columns[i]` (an `IndexError` when there is none). A `between` slot needs
    the calculation list (`AttributeError` without one) and its entry `i`;
    a `value` or `calculation` slot has no entry in `test_functions` (`KeyError`).
   */
  function SlotResult(rule: Rule, i: nat, row: Row): (r: Result<bool, Exc>)
    requires rule.ManyRule? && i < |rule.kinds|
    ensures rule.kinds[i] in {ValueKind, CalcKind} ==> r == Err(KeyError)
    ensures rule.kinds[i] !in {ValueKind, CalcKind} && (i >= |rule.columns| || i >= |rule.conditions|) ==> r == Err(IndexError)
    ensures i < |rule.columns| && i < |rule.conditions| ==>
      && (rule.kinds[i] == Match ==> r == TestResult(MatchTest(rule.columns[i], rule.conditions[i]), row))
      && (rule.kinds[i] == SubMatch ==> r == TestResult(SubMatchTest(rule.columns[i], rule.conditions[i]), row))
      && (rule.kinds[i] == NotNull ==> r == TestResult(NotNullTest(rule.columns[i]), row))
    ensures (rule.kinds[i] == Between && i < |rule.columns| && i < |rule.conditions| && rule.calcs.Some?
             && i < |rule.calcs.value| && rule.calcs.value[i].Some?) ==>
      r == TestResult(BetweenTest(Listify(rule.columns[i]), rule.conditions[i], rule.calcs.value[i].value), row)
  {
    var kind := rule.kinds[i];
    if kind == ValueKind || kind == CalcKind then Err(KeyError)
    else if i >= |rule.columns| || i >= |rule.conditions| then Err(IndexError)
    else if kind == Match then Ok(MatchHolds(rule.columns[i], rule.conditions[i], row))
    else if kind == SubMatch then Ok(SubMatchHolds(rule.columns[i], rule.conditions[i], row))
    else if kind == NotNull then NotNullResult(rule.columns[i], row)
    else if rule.calcs.None? then Err(AttributeError)
    else if i >= |rule.calcs.value| then Err(IndexError)
    else BetweenResult(Listify(rule.columns[i]), rule.conditions[i], rule.calcs.value[i], row)
  }

  /** The results of the first `n` slots in order, or the exception of the first slot that raises. */
  function Collect(rule: Rule, row: Row, n: nat): (r: Result<seq<bool>, Exc>)
    requires rule.ManyRule? && n <= |rule.kinds|
    ensures r.Ok? ==> |r.value| == n
    ensures r.Ok? ==> forall k :: 0 <= k < n ==> SlotResult(rule, k, row) == Ok(r.value[k])
    ensures r.Err? ==> exists k :: (0 <= k < n && SlotResult(rule, k, row) == Err(r.error)
      && forall j :: 0 <= j < k ==> SlotResult(rule, j, row).Ok?)
  {
    if n == 0 then Ok([])
    else
      match Collect(rule, row, n - 1)
      case Err(e) => Err(e)
      case Ok(vals) =>
        match SlotResult(rule, n - 1, row)
        case Err(e) => Err(e)
        case Ok(b) => Ok(vals + [b])
  }

  /** `test_many` as a function: all slots in order, then the boolean expression on their results. */
  function ManyResult(rule: Rule, row: Row): Result<bool, Exc>
    requires rule.ManyRule? && WellFormed(rule)
  {
    match Collect(rule, row, |rule.kinds|)
    case Err(e) => Err(e)
    case Ok(vals) => Ok(Logic.Eval(rule.expr, vals))
  }

  /** `test_many`: fills the result of every slot in order, then evaluates the expression. */
  method TestMany(rule: Rule, row: Row) returns (r: Result<bool, Exc>)
    requires rule.ManyRule? && WellFormed(rule)
    ensures r == ManyResult(rule, row)
  {
    var results: seq<bool> := [];
    var i := 0;
    while i < |rule.kinds|
      invariant 0 <= i <= |rule.kinds|
      invariant Collect(rule, row, i) == Ok(results)
    {
      var res := SlotResult(rule, i, row);
      CollectStep(rule, row, i, results);
      if res.Err? {
        CollectErrorSticks(rule, row, i + 1);
        return Err(res.error);
      }
      results := results + [res.value];
      i := i + 1;
    }
    return Ok(Logic.Eval(rule.expr, results));
  }

  /** One more slot: its exception, or its result appended. */
  lemma CollectStep(rule: Rule, row: Row, i: nat, results: seq<bool>)
    requires rule.ManyRule? && i < |rule.kinds| && Collect(rule, row, i) == Ok(results)
    ensures SlotResult(rule, i, row).Err? ==> Collect(rule, row, i + 1) == Err(SlotResult(rule, i, row).error)
    ensures SlotResult(rule, i, row).Ok? ==> Collect(rule, row, i + 1) == Ok(results + [SlotResult(rule, i, row).value])
  {
  }

  lemma {:induction false} CollectErrorSticks(rule: Rule, row: Row, n: nat)
    requires rule.ManyRule? && n <= |rule.kinds| && Collect(rule, row, n).Err?
    ensures Collect(rule, row, |rule.kinds|) == Collect(rule, row, n)
    decreases |rule.kinds| - n
  {
    if n < |rule.kinds| {
      CollectErrorStep(rule, row, n);
      CollectErrorSticks(rule, row, n + 1);
    }
  }

  lemma CollectErrorStep(rule: Rule, row: Row, n: nat)
    requires rule.ManyRule? && n < |rule.kinds| && Collect(rule, row, n).Err?
    ensures Collect(rule, row, n + 1) == Collect(rule, row, n)
  {
  }

  /** `test(row)` as a function of the built rule. */
  function Evaluate(rule: Rule, row: Row, env: Env): Result<Outcome, Exc>
    requires WellFormed(rule)
  {
    match rule
    case ValueRule(c, calculation) =>
      (match ValueResult(c, calculation, row, env) case Err(e) => Err(e) case Ok(v) => Ok(Raw(v)))
    case CalcRule(cols, f) =>
      (match CalcResult(cols, f, row, env) case Err(e) => Err(e) case Ok(x) => Ok(Number(x)))
    case SingleRule(t) =>
      (match TestResult(t, row) case Err(e) => Err(e) case Ok(b) => Ok(Flag(b)))
    case ManyRule(_, _, _, _, _) =>
      (match ManyResult(rule, row) case Err(e) => Err(e) case Ok(b) => Ok(Flag(b)))
  }

  /** `test(row)`: runs the evaluator the constructor picked. */
  method Test(rule: Rule, row: Row, env: Env) returns (r: Result<Outcome, Exc>)
    requires WellFormed(rule)
    ensures r == Evaluate(rule, row, env)
  {
    match rule {
      case ValueRule(c, calculation) =>
        var v := ValueResult(c, calculation, row, env);
        r := if v.Err? then Err(v.error) else Ok(Raw(v.value));
      case CalcRule(cols, f) =>
        var x := TestCalc(cols, f, row, env);
        r := if x.Err? then Err(x.error) else Ok(Number(x.value));
      case SingleRule(t) =>
        var b := TestResult(t, row);
        r := if b.Err? then Err(b.error) else Ok(Flag(b.value));
      case ManyRule(_, _, _, _, _) =>
        var b := TestMany(rule, row);
        r := if b.Err? then Err(b.error) else Ok(Flag(b.value));
    }
  }
}
