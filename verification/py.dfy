/**
  The Python values a data row holds and the few built-in behaviours of them
  the core depends on: truth value, the identity tests against `""`, `None` and
  `0`, `float()` and the exceptions these raise.
 */
module Py {
  import opened Wrappers
  import opened Text

  /** Why a `NameError` was raised while building a variable. */
  datatype NameReason =
    | WrongTestType   // an even token of `method` is not a test type
    | WrongLogicType  // an odd token of `method` is not a connective
    | ValueNotAlone   // "value" combined with other tests
    | CalcNotAlone    // "calc" combined with other tests
    | UnknownName     // an identifier of a calculation that is not a replaced column

  /** The exceptions the core raises or lets through. */
  datatype Exc =
    | NameError(reason: NameReason)
    | KeyError
    | TypeError
    | ValueError
    | IndexError
    | AttributeError
    | SyntaxError
    | ZeroDivisionError

  /** A cell of a data row: text, an integer, a float, `None` or a list. */
  datatype Value =
    | Str(s: string)
    | Int(i: int)
    | Real(r: real)
    | Null
    | List(items: seq<Value>)

  /** A data row: a dict from column name to cell. */
  type Row = map<string, Value>

  /** Python's truth value of a cell. */
  predicate Truthy(v: Value)
  {
    match v
    case Str(s) => s != ""
    case Int(i) => i != 0
    case Real(r) => r != 0.0
    case Null => false
    case List(items) => items != []
  }

  /**
    `v is "" or v is None or v is 0`: identity, not equality. CPython shares
    the empty string and small integers, so these hold for exactly the empty
    text, `None` and the integer 0; a float 0.0 or an empty list is not blank.
   */
  predicate IsBlank(v: Value)
  {
    v == Str("") || v == Null || v == Int(0)
  }

  /** A blank cell is falsy; the converse fails for 0.0 and the empty list. */
  lemma BlankIsFalsy(v: Value)
    ensures IsBlank(v) ==> !Truthy(v)
    ensures !Truthy(v) && !IsBlank(v) <==> v == Real(0.0) || v == List([])
  {
  }

  /** `float(v)`: numbers convert, text is parsed, anything else is a `TypeError`. */
  function ToFloat(v: Value): (r: Result<real, Exc>)
    ensures r.Err? ==> r.error == ValueError || r.error == TypeError
    ensures v.Int? ==> r == Ok(v.i as real)
    ensures v.Real? ==> r == Ok(v.r)
    ensures v.Str? ==> (r.Ok? <==> ParseNumber(v.s).Some?)
  {
    match v
    case Int(i) => Ok(i as real)
    case Real(x) => Ok(x)
    case Str(s) => (match ParseNumber(s) case Some(x) => Ok(x) case None => Err(ValueError))
    case Null => Err(TypeError)
    case List(_) => Err(TypeError)
  }

  /** `float(str(i)) == float(i)`: an integer written as text converts to the same number. */
  lemma ToFloatIntText(i: int)
    ensures ToFloat(Str(IntToString(i))) == ToFloat(Int(i))
  {
    IntToStringParses(i);
  }
}
