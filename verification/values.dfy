/**
 * The runtime datum of the interpreter: the tagged union `lval` with its six
 * variants. Lists own their children outright, so an immutable tree with
 * `seq` children models them; copying a value (`lval_copy`) is the identity.
 */
module Values {

  /** The eight arithmetic operators that share `builtin_op`. */
  datatype ArithOp = Add | Sub | Mul | Div | Mod | Pow | Min | Max

  /**
   * The closed set of native functions a `Fun` value can hold: the fifteen
   * builtins registered at start-up, seven list builtins and eight
   * arithmetic ones.
   */
  datatype Builtin = List | Head | Tail | Eval | Join | Len | Init | Arith(op: ArithOp)

  datatype Value =
    | Num(n: int)
    | Err(msg: string)
    | Sym(name: string)
    | Fun(fn: Builtin)
    | SExpr(cells: seq<Value>)
    | QExpr(cells: seq<Value>)

  // The error texts exactly as the interpreter builds them; the printer adds
  // a further "Error: " in front of each.
  const UnboundSymbol := "Error: Unbound symbol"
  const InvalidSymbol := "Error: Invalid Symbol"
  const InvalidNumber := "Error: Invalid Number"
  const ReadInvalidNumber := "Error: Invalied Number"
  const DivisionByZero := "Error: Division by zero"
  const TooManyArguments := "Error: Function passed too many arguments"
  const InvalidType := "Error: Function passed invalid type"
  const InvalidSyntax := "Error: Invalid syntax"

  /** The number of `lval` nodes in a value tree. */
  function Size(v: Value): (r: nat)
    ensures r >= 1
  {
    match v
    case SExpr(cells) => 1 + SumSizes(cells)
    case QExpr(cells) => 1 + SumSizes(cells)
    case _ => 1
  }

  function SumSizes(cells: seq<Value>): (r: nat)
    ensures r >= |cells|
  {
    if |cells| == 0 then 0 else Size(cells[0]) + SumSizes(cells[1..])
  }

  lemma {:induction false} SumSizesAppend(a: seq<Value>, b: seq<Value>)
    ensures SumSizes(a + b) == SumSizes(a) + SumSizes(b)
  {
    if |a| > 0 {
      assert (a + b)[1..] == a[1..] + b;
      SumSizesAppend(a[1..], b);
    } else {
      assert a + b == b;
    }
  }

  lemma SumSizesSplit(cells: seq<Value>, i: nat)
    requires i <= |cells|
    ensures SumSizes(cells) == SumSizes(cells[..i]) + SumSizes(cells[i..])
  {
    assert cells == cells[..i] + cells[i..];
    SumSizesAppend(cells[..i], cells[i..]);
  }

  lemma SumSizesElement(cells: seq<Value>, i: nat)
    requires i < |cells|
    ensures Size(cells[i]) <= SumSizes(cells)
  {
    SumSizesSplit(cells, i);
    assert cells[i..][0] == cells[i];
  }

  /**
   * A value evaluation leaves as it is: numbers, errors, functions, quoted
   * lists and the empty S-expression.
   */
  predicate NormalForm(v: Value)
  {
    v.Num? || v.Err? || v.Fun? || v.QExpr? || v == SExpr([])
  }
}
