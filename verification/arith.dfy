/**
  The arithmetic of a calculation once its column names have been replaced by
  `float(row["<column>"])` and the text handed to `eval`: constants, the replaced
  columns, unary minus and plus, and the operators `+ - * / // %`, evaluated
  left to right as Python does, so the first failing step decides the exception.
 */
module Arith {
  import opened Wrappers
  import opened Py

  /** The binary operators `+`, `-`, `*`, `/`, `//` and `%`. */
  datatype Op = Plus | Minus | Times | Over | FloorDiv | Mod

  /** A parsed calculation; `Name` is an identifier of the text. */
  datatype Expr =
    | Const(value: real)
    | Name(id: string)
    | Neg(e: Expr)
    | Pos(e: Expr)
    | Bin(op: Op, l: Expr, r: Expr)

  /** Python's `//` on floats: the quotient rounded down. */
  function FloorQuotient(x: real, y: real): real
    requires y != 0.0
  {
    (x / y).Floor as real
  }

  /**
    One operator on two floats; the three divisions by zero raise. The
    remainder of `%` takes the sign of the divisor and is smaller than it.
   */
  function Apply(op: Op, x: real, y: real): (r: Result<real, Exc>)
    ensures r.Err? <==> op in {Over, FloorDiv, Mod} && y == 0.0
    ensures r.Err? ==> r.error == ZeroDivisionError
    ensures op == Mod && y > 0.0 ==> r.Ok? && 0.0 <= r.value < y
    ensures op == Mod && y < 0.0 ==> r.Ok? && y < r.value <= 0.0
  {
    match op
    case Plus => Ok(x + y)
    case Minus => Ok(x - y)
    case Times => Ok(x * y)
    case Over => if y == 0.0 then Err(ZeroDivisionError) else Ok(x / y)
    case FloorDiv => if y == 0.0 then Err(ZeroDivisionError) else Ok(FloorQuotient(x, y))
    case Mod =>
      if y == 0.0 then Err(ZeroDivisionError)
      else
        RemainderBounds(x, y);
        Ok(x - y * FloorQuotient(x, y))
  }

  /** `x - y * (x // y)` lies between 0 and the divisor, on the divisor's side. */
  lemma RemainderBounds(x: real, y: real)
    requires y != 0.0
    ensures var m := x - y * FloorQuotient(x, y);
      (y > 0.0 ==> 0.0 <= m < y) && (y < 0.0 ==> y < m <= 0.0)
  {
    var q := x / y;
    var k := q.Floor as real;
    assert k <= q < k + 1.0;
    assert y * q == x;
    SideOfDivisor(x, y, q, k);
  }

  /** With `x == y * q` and `k` the floor of `q`, `x - y * k` is `y` times a fraction in [0, 1). */
  lemma SideOfDivisor(x: real, y: real, q: real, k: real)
    requires x == y * q && k <= q < k + 1.0
    ensures y > 0.0 ==> 0.0 <= x - y * k < y
    ensures y < 0.0 ==> y < x - y * k <= 0.0
  {
    var d := q - k;
    assert x - y * k == y * d;
    if y > 0.0 {
      assert y * (1.0 - d) > 0.0;
    } else if y < 0.0 {
      assert -y * (1.0 - d) > 0.0;
      assert -y * d >= 0.0;
    }
  }

  /** `//` and `%` split the dividend: `(x // y) * y + x % y == x`, with a whole quotient. */
  lemma DivModIdentity(x: real, y: real)
    requires y != 0.0
    ensures Apply(FloorDiv, x, y).Ok? && Apply(Mod, x, y).Ok?
    ensures Apply(FloorDiv, x, y).value * y + Apply(Mod, x, y).value == x
    ensures Apply(FloorDiv, x, y).value == Apply(FloorDiv, x, y).value.Floor as real
  {
  }

  /** Every identifier of `e` is one of the replaced columns. */
  predicate Closed(e: Expr, cols: seq<string>)
  {
    match e
    case Const(_) => true
    case Name(id) => id in cols
    case Neg(a) => Closed(a, cols)
    case Pos(a) => Closed(a, cols)
    case Bin(_, a, b) => Closed(a, cols) && Closed(b, cols)
  }

  /** Both operands, left first; the first error wins. */
  function Both(a: Result<real, Exc>, b: Result<real, Exc>): (r: Result<(real, real), Exc>)
    ensures r.Ok? <==> a.Ok? && b.Ok?
    ensures a.Err? ==> r == Err(a.error)
    ensures a.Ok? && b.Err? ==> r == Err(b.error)
    ensures r.Ok? ==> r.value == (a.value, b.value)
  {
    match a
    case Err(e) => Err(e)
    case Ok(x) => (match b case Err(e) => Err(e) case Ok(y) => Ok((x, y)))
  }

  /**
    `eval` of the replaced text: a replaced column reads `float(row[c])`, any
    other identifier is undefined, and division by zero raises.
   */
  function Eval(e: Expr, cols: seq<string>, row: Row): Result<real, Exc>
  {
    match e
    case Const(x) => Ok(x)
    case Name(id) =>
      if id !in cols then Err(NameError(UnknownName))
      else if id !in row then Err(KeyError)
      else ToFloat(row[id])
    case Neg(a) => (match Eval(a, cols, row) case Err(x) => Err(x) case Ok(x) => Ok(-x))
    case Pos(a) => Eval(a, cols, row)
    case Bin(op, a, b) =>
      (match Both(Eval(a, cols, row), Eval(b, cols, row))
       case Err(x) => Err(x)
       case Ok(p) => Apply(op, p.0, p.1))
  }

  /** A calculation naming anything but the replaced columns never yields a number. */
  lemma {:induction false} OpenFails(e: Expr, cols: seq<string>, row: Row)
    requires !Closed(e, cols)
    ensures Eval(e, cols, row).Err?
  {
    match e
    case Const(_) =>
    case Name(_) =>
    case Neg(a) => OpenFails(a, cols, row);
    case Pos(a) => OpenFails(a, cols, row);
    case Bin(_, a, b) => if Closed(a, cols) { OpenFails(b, cols, row); } else { OpenFails(a, cols, row); }
  }

  /** Every replaced column is in the row and reads as a number. */
  predicate Numeric(cols: seq<string>, row: Row)
  {
    forall c :: c in cols ==> c in row && ToFloat(row[c]).Ok?
  }

  /**
    With every replaced column present and numeric, a closed calculation
    fails at most by dividing by zero.
   */
  lemma {:induction false} ClosedOnlyDividesByZero(e: Expr, cols: seq<string>, row: Row)
    requires Closed(e, cols) && Numeric(cols, row)
    ensures Eval(e, cols, row).Ok? || Eval(e, cols, row) == Err(ZeroDivisionError)
  {
    match e
    case Const(_) =>
    case Name(_) =>
    case Neg(a) => ClosedOnlyDividesByZero(a, cols, row);
    case Pos(a) => ClosedOnlyDividesByZero(a, cols, row);
    case Bin(_, a, b) => ClosedOnlyDividesByZero(a, cols, row); ClosedOnlyDividesByZero(b, cols, row);
  }

  /** The value of a calculation depends on the replaced columns of the row only. */
  lemma {:induction false} EvalReadsColumns(e: Expr, cols: seq<string>, row1: Row, row2: Row)
    requires forall c :: c in cols ==> (c in row1 <==> c in row2)
    requires forall c :: c in cols && c in row1 ==> row1[c] == row2[c]
    ensures Eval(e, cols, row1) == Eval(e, cols, row2)
  {
    match e
    case Const(_) =>
    case Name(_) =>
    case Neg(a) => EvalReadsColumns(a, cols, row1, row2);
    case Pos(a) => EvalReadsColumns(a, cols, row1, row2);
    case Bin(_, a, b) => EvalReadsColumns(a, cols, row1, row2); EvalReadsColumns(b, cols, row1, row2);
  }
}
