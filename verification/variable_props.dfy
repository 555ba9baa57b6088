/**
  What a built `Variable` promises: which definitions build which shape and
  which raise, what each primitive test means, and what a multi-test
  variable computes from its tests.
 */
module VariableProps {
  import opened Wrappers
  import opened Text
  import opened Py
  import opened Variable
  import Arith
  import Logic
  import EpiWeek
  import Civil

  // ---------------------------------------------------------------- building

  /** A token that is valid at an odd position is never a test type. */
  lemma ConnectiveIsNoTest(t: string)
    requires ConnOf(t).Some?
    ensures KindOf(t).None?
  {
  }

  /**
    The shape a definition builds is decided by its method tokens: `value`
    alone, `calc` alone, one other test, or several tests, which are then
    never `value` or `calc` and are combined by the parse of the connectives.
   */
  lemma BuildShapes(d: Definition, parse: Parser, tokens: seq<string>, r: Result<Rule, Exc>)
    requires tokens == Split(d.methodText, ' ') && r == Build(d, parse)
    ensures r.Ok? ==>
      && |tokens| % 2 == 1
      && |Split(d.condition, ';')| == (|tokens| + 1) / 2
      && (r.value.ValueRule? <==> tokens == ["value"])
      && (r.value.CalcRule? <==> tokens == ["calc"])
      && (r.value.SingleRule? <==> |tokens| == 1 && tokens[0] != "value" && tokens[0] != "calc")
      && (r.value.ManyRule? <==> |tokens| > 1)
  {
    if r.Ok? {
      var sc := Scan(tokens).value;
      var conditions := Conditions(Split(d.condition, ';'));
      var columns := Columns(Split(d.dbColumn, ';'));
      BuildUnfold(d, parse, sc, conditions, columns);
      ShapeKinds(sc, conditions, columns, d.calculation, parse);
      TokensKinds(tokens, sc);
    }
  }

  /** Several tests keep their scanned types, none of them `value` or `calc`, and the parse of the connectives. */
  lemma BuildManyShape(d: Definition, parse: Parser, tokens: seq<string>, r: Result<Rule, Exc>)
    requires tokens == Split(d.methodText, ' ') && r == Build(d, parse)
    ensures r.Ok? && r.value.ManyRule? ==>
      && Scan(tokens).Ok?
      && r.value.kinds == Scan(tokens).value.kinds
      && r.value.expr == Logic.Parse(Scan(tokens).value.ops)
      && ValueKind !in Scan(tokens).value.kinds && CalcKind !in Scan(tokens).value.kinds
  {
    if r.Ok? {
      var sc := Scan(tokens).value;
      var conditions := Conditions(Split(d.condition, ';'));
      var columns := Columns(Split(d.dbColumn, ';'));
      BuildUnfold(d, parse, sc, conditions, columns);
      ShapeKinds(sc, conditions, columns, d.calculation, parse);
    }
  }

  lemma Singleton<T>(s: seq<T>)
    requires |s| == 1
    ensures s == [s[0]]
  {
  }

  /** The method word of a test type is "value" or "calc" exactly for those types. */
  lemma WordKind(t: string, k: Kind)
    requires KindOf(t) == Some(k)
    ensures t == "value" <==> k == ValueKind
    ensures t == "calc" <==> k == CalcKind
  {
    KindOfName(t);
  }

  /** An odd number of valid tokens is one test type exactly when one type is scanned, and names it. */
  lemma TokensKinds(tokens: seq<string>, sc: Scanned)
    requires Scan(tokens) == Ok(sc) && |tokens| % 2 == 1
    ensures tokens == ["value"] <==> sc.kinds == [ValueKind]
    ensures tokens == ["calc"] <==> sc.kinds == [CalcKind]
    ensures |tokens| == 1 && tokens[0] != "value" && tokens[0] != "calc"
      <==> |sc.kinds| == 1 && sc.kinds[0] != ValueKind && sc.kinds[0] != CalcKind
    ensures |tokens| > 1 <==> |sc.kinds| > 1
  {
    if |tokens| == 1 {
      var k := sc.kinds[0];
      WordKind(tokens[0], k);
      Singleton(tokens);
      Singleton(sc.kinds);
    } else {
      assert |sc.kinds| > 1;
    }
  }

  /** The shape chosen follows the scanned test types alone. */
  lemma ShapeKinds(sc: Scanned, conditions: seq<seq<string>>, columns: seq<Column>,
                   calculation: Option<string>, parse: Parser)
    requires |sc.kinds| >= 1 && |conditions| >= 1 && |columns| >= 1
    ensures var r := Shape(sc, conditions, columns, calculation, parse);
      r.Ok? ==>
        && (r.value.ValueRule? <==> sc.kinds == [ValueKind])
        && (r.value.CalcRule? <==> sc.kinds == [CalcKind])
        && (r.value.SingleRule? <==> |sc.kinds| == 1 && sc.kinds[0] != ValueKind && sc.kinds[0] != CalcKind)
        && (r.value.ManyRule? <==> |sc.kinds| > 1)
    ensures var r := Shape(sc, conditions, columns, calculation, parse);
      r.Ok? && r.value.ManyRule? ==>
        && r.value.kinds == sc.kinds && r.value.expr == Logic.Parse(sc.ops)
        && ValueKind !in sc.kinds && CalcKind !in sc.kinds
  {
    if |sc.kinds| == 1 {
      assert sc.kinds == [sc.kinds[0]];
    }
  }

  /**
    The first bad token decides the exception: a wrong test type or
    connective is a `NameError`, "not" a `KeyError`.
   */
  lemma BuildFirstBadToken(d: Definition, parse: Parser, i: nat)
    requires var tokens := Split(d.methodText, ' ');
      i < |tokens| && !ValidToken(i, tokens[i]) && forall j :: 0 <= j < i ==> ValidToken(j, tokens[j])
    ensures Build(d, parse) == Err(TokenError(i, Split(d.methodText, ' ')[i]))
  {
    var tokens := Split(d.methodText, ' ');
    var r := Scan(tokens);
    assert r.Err?;
    var i' :| 0 <= i' < |tokens| && !ValidToken(i', tokens[i'])
      && (forall j :: 0 <= j < i' ==> ValidToken(j, tokens[j])) && r.error == TokenError(i', tokens[i']);
    assert i' == i;
  }

  /** `Build` once its three splits are known. */
  lemma BuildUnfold(d: Definition, parse: Parser, sc: Scanned, conditions: seq<seq<string>>, columns: seq<Column>)
    requires Scan(Split(d.methodText, ' ')) == Ok(sc) && |Split(d.methodText, ' ')| % 2 == 1
    requires Conditions(Split(d.condition, ';')) == conditions && Columns(Split(d.dbColumn, ';')) == columns
    requires |conditions| == |sc.kinds|
    ensures Build(d, parse) == Shape(sc, conditions, columns, d.calculation, parse)
  {
  }

  /** A method ending in a connective does not compile. */
  lemma BuildTrailingConnective(d: Definition, parse: Parser)
    requires var tokens := Split(d.methodText, ' ');
      (forall i :: 0 <= i < |tokens| ==> ValidToken(i, tokens[i])) && |tokens| % 2 == 0
    ensures Build(d, parse) == Err(SyntaxError)
  {
  }

  /** Then the number of `;`-clauses of the condition must be the number of tests. */
  lemma BuildClauseCount(d: Definition, parse: Parser)
    requires var tokens := Split(d.methodText, ' ');
      && (forall i :: 0 <= i < |tokens| ==> ValidToken(i, tokens[i])) && |tokens| % 2 == 1
      && |Split(d.condition, ';')| != (|tokens| + 1) / 2
    ensures Build(d, parse) == Err(TypeError)
  {
  }

  /** The method word of a test type. */
  function KindName(k: Kind): (t: string)
    ensures KindOf(t) == Some(k)
  {
    match k
    case Match => "match"
    case SubMatch => "sub_match"
    case Between => "between"
    case ValueKind => "value"
    case NotNull => "not_null"
    case CalcKind => "calc"
  }

  /** Each test type has exactly one method word. */
  lemma KindOfName(t: string)
    ensures KindOf(t).Some? ==> t == KindName(KindOf(t).value)
  {
  }

  /** The scan of a single test type. */
  lemma ScanOne(t: string)
    requires KindOf(t).Some?
    ensures Scan([t]) == Ok(Scanned([KindOf(t).value], []))
  {
    var tokens := [t];
    assert tokens[..0] == [];
    assert Scan(tokens[..0]) == Ok(Scanned([], []));
    assert [] + [KindOf(t).value] == [KindOf(t).value];
  }

  /** The scan of two test types joined by a connective. */
  lemma ScanThree(a: string, c: string, b: string)
    requires KindOf(a).Some? && ConnOf(c).Some? && KindOf(b).Some?
    ensures Scan([a, c, b]) == Ok(Scanned([KindOf(a).value, KindOf(b).value], [ConnOf(c).value]))
  {
    var tokens := [a, c, b];
    var two := [a, c];
    assert two[..1] == [a];
    ScanOne(a);
    assert [] + [ConnOf(c).value] == [ConnOf(c).value];
    assert Scan(two) == Ok(Scanned([KindOf(a).value], [ConnOf(c).value]));
    assert tokens[..2] == two;
    assert [KindOf(a).value] + [KindOf(b).value] == [KindOf(a).value, KindOf(b).value];
  }

  /** A test type among valid tokens sits at an even position and is one of the scanned kinds. */
  lemma ScannedKind(tokens: seq<string>, t: string, kind: Kind)
    requires forall i :: 0 <= i < |tokens| ==> ValidToken(i, tokens[i])
    requires KindOf(t) == Some(kind)
    ensures t in tokens <==> kind in Scan(tokens).value.kinds
  {
    var sc := Scan(tokens).value;
    if t in tokens {
      var i :| 0 <= i < |tokens| && tokens[i] == t;
      if i % 2 == 1 {
        assert ValidToken(i, tokens[i]);
        ConnectiveIsNoTest(t);
      }
      var k := i / 2;
      assert i == 2 * k;
      KindAt(tokens, sc, k);
    }
    if kind in sc.kinds {
      var k :| 0 <= k < |sc.kinds| && sc.kinds[k] == kind;
      KindAt(tokens, sc, k);
      KindOfName(tokens[2 * k]);
      KindOfName(t);
    }
  }

  /** The `k`-th scanned test type is read from token `2k`. */
  lemma KindAt(tokens: seq<string>, sc: Scanned, k: int)
    requires Scan(tokens) == Ok(sc) && 0 <= k < |sc.kinds|
    ensures 2 * k < |tokens| && KindOf(tokens[2 * k]) == Some(sc.kinds[k])
  {
  }

  /** Then `value`, and after it `calc`, must be the only test. */
  lemma BuildAloneChecks(d: Definition, parse: Parser)
    requires var tokens := Split(d.methodText, ' ');
      && (forall i :: 0 <= i < |tokens| ==> ValidToken(i, tokens[i])) && |tokens| % 2 == 1
      && |Split(d.condition, ';')| == (|tokens| + 1) / 2 && |tokens| > 1
    ensures "value" in Split(d.methodText, ' ') ==> Build(d, parse) == Err(NameError(ValueNotAlone))
    ensures "value" !in Split(d.methodText, ' ') && "calc" in Split(d.methodText, ' ')
      ==> Build(d, parse) == Err(NameError(CalcNotAlone))
  {
    var tokens := Split(d.methodText, ' ');
    ScannedKind(tokens, "value", ValueKind);
    ScannedKind(tokens, "calc", CalcKind);
  }

  /** Splitting at the first separator. */
  lemma SplitFirst(s: string, sep: char, i: nat)
    requires i < |s| && s[i] == sep && sep !in s[..i]
    ensures Split(s, sep) == [s[..i]] + Split(s[i + 1..], sep)
  {
    var j := IndexOf(s, sep);
    assert j == i;
  }

  /**
    "not" passes the connective check but has no translation: a method whose
    first token is a test type and whose second is "not" raises `KeyError`
    ("match not match", for one).
   */
  lemma NotIsKeyError(d: Definition, parse: Parser)
    requires var tokens := Split(d.methodText, ' ');
      |tokens| >= 2 && KindOf(tokens[0]).Some? && tokens[1] == "not"
    ensures Build(d, parse) == Err(KeyError)
  {
    BuildFirstBadToken(d, parse, 1);
  }

  // ---------------------------------------------------------------- primitive tests

  /**
    On a text cell, `sub_match` holds exactly when some element of the
    condition occurs inside the cell's text (the listed-value check is the
    case where the element is the whole text).
   */
  lemma SubMatchOnText(name: string, condition: seq<string>, row: Row)
    requires name in row && row[name].Str?
    ensures SubMatchHolds(One(name), condition, row) <==>
      exists k :: 0 <= k < |condition| && Contains(row[name].s, condition[k])
  {
    var s := row[name].s;
    if s in condition {
      var k :| 0 <= k < |condition| && condition[k] == s;
      ContainsSelfAndEmpty(s);
      assert Contains(s, condition[k]);
    }
    if exists k :: 0 <= k < |condition| && Contains(s, condition[k]) {
      var k :| 0 <= k < |condition| && Contains(s, condition[k]);
      if s == "" {
        var p :| 0 <= p <= |s| - |condition[k]| && OccursAt(s, condition[k], p);
        assert condition[k] == s;
      }
    }
  }

  /** The condition element is looked for inside the cell, not the other way round. */
  lemma SubMatchDirection()
    ensures SubMatchHolds(One("symptoms"), ["fever"], map["symptoms" := Str("high fever")])
    ensures !SubMatchHolds(One("symptoms"), ["high fever"], map["symptoms" := Str("fever")])
  {
    SubMatchOnText("symptoms", ["fever"], map["symptoms" := Str("high fever")]);
    assert OccursAt("high fever", "fever", 5);
    assert Contains("high fever", ["fever"][0]);
    SubMatchOnText("symptoms", ["high fever"], map["symptoms" := Str("fever")]);
  }

  /** `not_null` on a missing column, an empty text, a zero, a float zero and a text. */
  lemma NotNullExamples()
    ensures NotNullResult(One("gender"), map[]) == Ok(false)
    ensures NotNullResult(One("gender"), map["gender" := Str("")]) == Ok(false)
    ensures NotNullResult(One("gender"), map["gender" := Null]) == Ok(false)
    ensures NotNullResult(One("gender"), map["gender" := Int(0)]) == Ok(false)
    ensures NotNullResult(One("gender"), map["gender" := Real(0.0)]) == Ok(true)
    ensures NotNullResult(One("gender"), map["gender" := Str("M")]) == Ok(true)
  {
  }

  /**
    `value` and `not_null` share one notion of a blank cell: the value is 0
    exactly when `not_null` fails (for any calculation but "date"), and the
    cell itself when it holds. A list of columns is a `TypeError` for both.
   */
  lemma ValueMatchesNotNull(column: Column, calculation: Option<string>, row: Row, env: Env)
    ensures column.Several? ==> ValueResult(column, calculation, row, env) == Err(TypeError) && NotNullResult(column, row) == Err(TypeError)
    ensures NotNullResult(column, row) == Ok(false) ==> ValueResult(column, calculation, row, env) == Ok(Int(0))
    ensures column.One? && calculation != Some("date") ==>
      && (ValueResult(column, calculation, row, env) == Ok(Int(0)) <==> NotNullResult(column, row) == Ok(false))
      && (NotNullResult(column, row) == Ok(true) ==> ValueResult(column, calculation, row, env) == Ok(row[column.name]))
  {
    if column.One? && column.name in row && !IsBlank(row[column.name]) {
      var v := row[column.name];
      assert v != Int(0);
    }
  }

  /**
    With every column present and truthy and both bounds numbers, `between`
    is the half-open interval test `lo <= x < hi`.
   */
  lemma BetweenInterval(columns: seq<string>, condition: seq<string>, e: Arith.Expr, row: Row,
                        x: real, lo: real, hi: real)
    requires AllPresent(columns, row) && Arith.Eval(e, columns, row) == Ok(x)
    requires |condition| >= 2 && ParseNumber(condition[0]) == Some(lo) && ParseNumber(condition[1]) == Some(hi)
    ensures BetweenResult(columns, condition, Some(Parsed(e)), row) == Ok(lo <= x && x < hi)
  {
  }

  /** Below the lower bound the upper bound is never read, so it may be missing or malformed. */
  lemma BetweenBelowLower(columns: seq<string>, condition: seq<string>, e: Arith.Expr, row: Row, x: real, lo: real)
    requires AllPresent(columns, row) && Arith.Eval(e, columns, row) == Ok(x)
    requires |condition| >= 1 && ParseNumber(condition[0]) == Some(lo) && x < lo
    ensures BetweenResult(columns, condition, Some(Parsed(e)), row) == Ok(false)
  {
  }

  lemma AgeTexts()
    ensures Split("between", ' ') == ["between"]
    ensures Split("0,5", ';') == ["0,5"]
    ensures Split("age", ';') == ["age"]
    ensures Split("0,5", ',') == ["0", "5"]
  {
    assert ' ' !in "between";
    SplitSingle("between", ' ');
    assert ';' !in "0,5";
    SplitSingle("0,5", ';');
    assert ';' !in "age";
    SplitSingle("age", ';');
    var s := "0,5";
    assert s[..1] == "0" && s[1] == ',' && ',' !in "0";
    assert s[2..] == "5";
    SplitFirst(s, ',', 1);
    assert ',' !in "5";
    SplitSingle("5", ',');
    assert Split(s, ',') == ["0"] + ["5"];
  }

  /** `between` with condition "0,5" on the age column builds one interval test. */
  lemma AgeBetweenBuild(parse: Parser)
    ensures Build(Definition("between", "0,5", "age", Some("age")), parse)
      == Ok(SingleRule(BetweenTest(["age"], ["0", "5"], parse("age"))))
  {
    var d := Definition("between", "0,5", "age", Some("age"));
    AgeClauses();
    var sc := Scanned([Between], []);
    assert Shape(sc, [["0", "5"]], [One("age")], d.calculation, parse)
      == Ok(SingleRule(BetweenTest(["age"], ["0", "5"], parse("age"))));
    BuildUnfold(d, parse, sc, [["0", "5"]], [One("age")]);
  }

  lemma AgeClauses()
    ensures Scan(Split("between", ' ')) == Ok(Scanned([Between], []))
    ensures Conditions(Split("0,5", ';')) == [["0", "5"]]
    ensures Columns(Split("age", ';')) == [One("age")]
  {
    AgeTexts();
    AgeCondition();
    assert KindOf("between") == Some(Between);
    ScanOne("between");
  }

  lemma AgeCondition()
    ensures ConditionOf("0,5") == ["0", "5"]
  {
    AgeTexts();
    StripNoSpace("0");
    StripNoSpace("5");
    assert StripAll(["0", "5"]) == ["0", "5"];
  }

  /**
    On that test, an age cell holding the text of an integer `x` is in exactly
    when `lo <= x < hi`.
   */
  lemma IntegerAgeBetween(x: int, lo: int, hi: int, row: Row, condition: seq<string>)
    requires row == map["age" := Str(IntToString(x))]
    requires condition == [IntToString(lo), IntToString(hi)]
    ensures TestResult(BetweenTest(["age"], condition, Parsed(Arith.Name("age"))), row) == Ok(lo <= x < hi)
  {
    var cols := ["age"];
    var f := Arith.Name("age");
    AgeReads(x, row);
    BoundsRead(lo, hi, condition);
    assert TestResult(BetweenTest(cols, condition, Parsed(f)), row) == BetweenResult(cols, condition, Some(Parsed(f)), row);
    if lo <= x {
      BetweenInterval(cols, condition, f, row, x as real, lo as real, hi as real);
    } else {
      BetweenBelowLower(cols, condition, f, row, x as real, lo as real);
    }
  }

  /** A condition holding the texts of two integers reads back as those bounds. */
  lemma BoundsRead(lo: int, hi: int, condition: seq<string>)
    requires condition == [IntToString(lo), IntToString(hi)]
    ensures |condition| >= 2
    ensures ParseNumber(condition[0]) == Some(lo as real) && ParseNumber(condition[1]) == Some(hi as real)
  {
    IntToStringParses(lo);
    IntToStringParses(hi);
  }

  /** An age cell holding the text of `x` is present, truthy and reads as `x`. */
  lemma AgeReads(x: int, row: Row)
    requires row == map["age" := Str(IntToString(x))]
    ensures AllPresent(["age"], row)
    ensures Arith.Eval(Arith.Name("age"), ["age"], row) == Ok(x as real)
  {
    var t := IntToString(x);
    IntToStringParses(x);
    IntToStringNoSpace(x);
    assert ToFloat(Str(t)) == Ok(x as real);
    var cols := ["age"];
    assert "age" in cols && "age" in row && row["age"] == Str(t);
    assert AllPresent(cols, row) by {
      assert cols[0] == "age";
    }
  }

  /** Age 4 is in. */
  lemma AgeFourIn()
    ensures TestResult(BetweenTest(["age"], ["0", "5"], Parsed(Arith.Name("age"))), map["age" := Str("4")]) == Ok(true)
  {
    assert IntToString(0) == "0" && IntToString(4) == "4" && IntToString(5) == "5";
    IntegerAgeBetween(4, 0, 5, map["age" := Str("4")], ["0", "5"]);
  }

  /** Age 5 is out: the upper bound is exclusive. */
  lemma AgeFiveOut()
    ensures TestResult(BetweenTest(["age"], ["0", "5"], Parsed(Arith.Name("age"))), map["age" := Str("5")]) == Ok(false)
  {
    assert IntToString(0) == "0" && IntToString(5) == "5";
    IntegerAgeBetween(5, 0, 5, map["age" := Str("5")], ["0", "5"]);
  }

  /** Age -1 is out: below the inclusive lower bound. */
  lemma AgeNegativeOut()
    ensures TestResult(BetweenTest(["age"], ["0", "5"], Parsed(Arith.Name("age"))), map["age" := Str("-1")]) == Ok(false)
  {
    assert IntToString(0) == "0" && IntToString(5) == "5" && NatToString(1) == "1" && IntToString(-1) == "-1";
    IntegerAgeBetween(-1, 0, 5, map["age" := Str("-1")], ["0", "5"]);
  }

  /** A missing or empty age is out without evaluating anything. */
  lemma AgeAbsentOut()
    ensures TestResult(BetweenTest(["age"], ["0", "5"], Parsed(Arith.Name("age"))), map[]) == Ok(false)
    ensures TestResult(BetweenTest(["age"], ["0", "5"], Parsed(Arith.Name("age"))), map["age" := Str("")]) == Ok(false)
  {
    var cols := ["age"];
    assert cols[0] == "age";
    assert !AllPresent(cols, map[]);
    assert !AllPresent(cols, map["age" := Str("")]);
  }

  // ---------------------------------------------------------------- calc and dates

  /**
    A calculation whose identifiers are all its columns never raises on a row
    whose truthy referenced cells are numbers: missing or falsy columns count
    as 0 and the only failure, division by zero, gives 0.
   */
  lemma CalcNeverRaisesOnNumbers(columns: seq<string>, e: Arith.Expr, row: Row, env: Env)
    requires Arith.Closed(e, columns)
    requires forall c :: c in columns && c in row && Truthy(row[c]) ==> row[c].Int? || row[c].Real?
    ensures CalcResult(columns, Parsed(e), row, env).Ok?
  {
    PrepareKeeps(columns, row, env);
    var p := Prepare(columns, row, env);
    assert p.Ok? by {
      PrepareNumbersOk(columns, row, env);
    }
    var r := p.value;
    assert Arith.Numeric(columns, r) by {
      forall c | c in columns ensures c in r && ToFloat(r[c]).Ok? {
        if c in row && Truthy(row[c]) {
          assert r[c] == row[c];
        } else {
          assert r[c] == Int(0);
        }
      }
    }
    Arith.ClosedOnlyDividesByZero(e, columns, r);
  }

  /** Preparing a row whose truthy referenced cells are numbers cannot fail: `to_date` leaves numbers alone. */
  lemma {:induction false} PrepareNumbersOk(columns: seq<string>, row: Row, env: Env)
    requires forall c :: c in columns && c in row && Truthy(row[c]) ==> row[c].Int? || row[c].Real?
    ensures Prepare(columns, row, env).Ok?
    decreases |columns|
  {
    if |columns| > 0 {
      var init := columns[..|columns| - 1];
      var c := columns[|columns| - 1];
      assert forall x :: x in init ==> x in columns;
      PrepareNumbersOk(init, row, env);
      PrepareKeeps(init, row, env);
      var p := Prepare(init, row, env).value;
      assert c in p && Truthy(p[c]) ==> p[c].Int? || p[c].Real?;
    }
  }

  /** `a + b` with `b` missing reads `b` as 0; `a / b` with `b` missing is a division by zero and gives 0. */
  lemma CalcMissingColumn(env: Env)
    ensures CalcResult(["a", "b"], Parsed(Arith.Bin(Arith.Plus, Arith.Name("a"), Arith.Name("b"))),
                       map["a" := Int(3)], env) == Ok(3.0)
    ensures CalcResult(["a", "b"], Parsed(Arith.Bin(Arith.Over, Arith.Name("a"), Arith.Name("b"))),
                       map["a" := Int(3)], env) == Ok(0.0)
  {
    var cols := ["a", "b"];
    assert cols[..1] == ["a"];
    assert ["a"][..0] == [];
    var row := map["a" := Int(3)];
    assert row["a" := Int(3)] == row;
    assert Prepare(["a"], row, env) == Ok(row);
    var r := row["b" := Int(0)];
    assert Prepare(cols, row, env) == Ok(r);
    assert Arith.Eval(Arith.Name("a"), cols, r) == Ok(3.0);
    assert Arith.Eval(Arith.Name("b"), cols, r) == Ok(0.0);
  }

  // ---------------------------------------------------------------- multi-test variables

  /**
    A multi-test rule evaluates to the reference meaning of its connectives:
    true exactly when some run of tests joined by `and` all pass; the first
    test that raises decides the exception.
   */
  lemma ManyResultMeaning(rule: Rule, row: Row, ops: seq<Logic.Conn>)
    requires rule.ManyRule? && |ops| + 1 == |rule.kinds| && rule.expr == Logic.Parse(ops)
    ensures WellFormed(rule)
    ensures var c := Collect(rule, row, |rule.kinds|);
      && (c.Ok? ==> ManyResult(rule, row) == Ok(Logic.SomeGroupTrue(ops, c.value, |ops|)))
      && (c.Err? ==> ManyResult(rule, row) == Err(c.error))
  {
    var c := Collect(rule, row, |rule.kinds|);
    if c.Ok? {
      Logic.ParseMeaning(ops, c.value);
    }
  }

  /** The multi-test result of a built variable, in terms of its method's connectives. */
  lemma BuiltManyMeaning(d: Definition, parse: Parser, row: Row)
    requires Build(d, parse).Ok? && Build(d, parse).value.ManyRule?
    ensures var rule := Build(d, parse).value; var ops := Scan(Split(d.methodText, ' ')).value.ops;
      && Scan(Split(d.methodText, ' ')).Ok?
      && WellFormed(rule)
      && var c := Collect(rule, row, |rule.kinds|);
        c.Ok? ==> ManyResult(rule, row) == Ok(Logic.SomeGroupTrue(ops, c.value, |ops|))
  {
    BuildManyShape(d, parse, Split(d.methodText, ' '), Build(d, parse));
    var rule := Build(d, parse).value;
    ManyResultMeaning(rule, row, Scan(Split(d.methodText, ' ')).value.ops);
  }

  /**
    A definition whose method reads "match and not_null", condition "M;" and
    column "gender;age" and no calculation builds two tests joined by `and`.
   */
  lemma MatchAndNotNullBuild(d: Definition, parse: Parser)
    requires Split(d.methodText, ' ') == ["match", "and", "not_null"]
    requires Split(d.condition, ';') == ["M", ""] && Split(d.dbColumn, ';') == ["gender", "age"]
    requires !HasText(d.calculation)
    ensures Build(d, parse)
      == Ok(ManyRule([Match, NotNull], [["M"], [""]], [One("gender"), One("age")], None,
                     Logic.Conj(Logic.Ref(0), Logic.Ref(1))))
  {
    var sc := Scanned([Match, NotNull], [Logic.And]);
    MatchAndNotNullClauses();
    MatchAndNotNullShape(sc, d.calculation, parse);
    BuildUnfold(d, parse, sc, [["M"], [""]], [One("gender"), One("age")]);
  }

  lemma MatchAndNotNullClauses()
    ensures Scan(["match", "and", "not_null"]) == Ok(Scanned([Match, NotNull], [Logic.And]))
    ensures Conditions(["M", ""]) == [["M"], [""]]
    ensures Columns(["gender", "age"]) == [One("gender"), One("age")]
  {
    assert KindOf("match") == Some(Match) && KindOf("not_null") == Some(NotNull);
    assert ConnOf("and") == Some(Logic.And);
    ScanThree("match", "and", "not_null");
    assert ConditionOf("M") == ["M"] && ConditionOf("") == [""];
    assert ColumnOf("gender") == One("gender") && ColumnOf("age") == One("age");
  }

  lemma MatchAndNotNullShape(sc: Scanned, calculation: Option<string>, parse: Parser)
    requires sc == Scanned([Match, NotNull], [Logic.And]) && !HasText(calculation)
    ensures Shape(sc, [["M"], [""]], [One("gender"), One("age")], calculation, parse)
      == Ok(ManyRule([Match, NotNull], [["M"], [""]], [One("gender"), One("age")], None,
                     Logic.Conj(Logic.Ref(0), Logic.Ref(1))))
  {
    assert Logic.GroupStart([Logic.And], 1) == 0;
    assert Logic.Parse([Logic.And]) == Logic.Conj(Logic.Ref(0), Logic.Ref(1));
    assert ValueKind !in sc.kinds && CalcKind !in sc.kinds;
  }

  /** Both tests of "match and not_null" must pass. */
  lemma MatchAndNotNullResult(row: Row, env: Env)
    ensures var rule := ManyRule([Match, NotNull], [["M"], [""]], [One("gender"), One("age")], None,
                                 Logic.Conj(Logic.Ref(0), Logic.Ref(1)));
      Evaluate(rule, row, env)
        == Ok(Flag(MatchHolds(One("gender"), ["M"], row) && NotNullResult(One("age"), row) == Ok(true)))
  {
    var rule := ManyRule([Match, NotNull], [["M"], [""]], [One("gender"), One("age")], None,
                         Logic.Conj(Logic.Ref(0), Logic.Ref(1)));
    var m := MatchHolds(One("gender"), ["M"], row);
    var n := NotNullResult(One("age"), row) == Ok(true);
    MatchAndNotNullSlots(rule, row);
    assert Logic.Eval(rule.expr, [m, n]) == (m && n);
  }

  /** The two slots of that variable give the match and the not-null results, in order. */
  lemma MatchAndNotNullSlots(rule: Rule, row: Row)
    requires rule == ManyRule([Match, NotNull], [["M"], [""]], [One("gender"), One("age")], None,
                              Logic.Conj(Logic.Ref(0), Logic.Ref(1)))
    ensures Collect(rule, row, 2)
      == Ok([MatchHolds(One("gender"), ["M"], row), NotNullResult(One("age"), row) == Ok(true)])
  {
    var m := MatchHolds(One("gender"), ["M"], row);
    var n := NotNullResult(One("age"), row) == Ok(true);
    assert SlotResult(rule, 0, row) == Ok(m);
    assert SlotResult(rule, 1, row) == Ok(n);
    assert Collect(rule, row, 0) == Ok([]);
    assert [] + [m] == [m] && [m] + [n] == [m, n];
    assert Collect(rule, row, 1) == Ok([m]);
  }
}
