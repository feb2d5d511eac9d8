/**
 * The builtin library apart from `eval` (which re-enters the evaluator and
 * lives there): the arithmetic fold `builtin_op` shared by the eight
 * operators, and the list builtins `list`, `head`, `tail`, `init`, `len` and
 * `join`. Each takes the evaluated argument cells of the call; failed guards
 * (`LASSERT`) return an error value and discard the arguments.
 */
module Builtins {
  import opened Options
  import opened CArith
  import opened Values
  import Cells

  // ----- arithmetic -----------------------------------------------------------

  /**
   * One step `x <op>= y` of the fold; None is the division-by-zero error that
   * stops the fold. `%` by zero is checked like `/` (see ModAsWritten for the
   * unchecked C); `^` is exact integer power, and zero to a negative power is
   * reported as a division by zero.
   */
  function ArithStep(op: ArithOp, x: int, y: int): (r: Option<int>)
    ensures r.None? <==> ((op == Div || op == Mod) && y == 0) || (op == Pow && x == 0 && y < 0)
    ensures op == Div && y != 0 ==> r == Some(TDiv(x, y))
    ensures op == Mod && y != 0 ==> r == Some(TMod(x, y))
    ensures op == Min && r.Some? ==> r.value <= x && r.value <= y && (r.value == x || r.value == y)
    ensures op == Max && r.Some? ==> r.value >= x && r.value >= y && (r.value == x || r.value == y)
  {
    match op
    case Add => Some(x + y)
    case Sub => Some(x - y)
    case Mul => Some(x * y)
    case Div => if y == 0 then None else Some(TDiv(x, y))
    case Mod => if y == 0 then None else Some(TMod(x, y))
    case Pow => if x == 0 && y < 0 then None else Some(Power(x, y))
    case Min => Some(if x > y then y else x)
    case Max => Some(if x > y then x else y)
  }

  /**
   * `x->num %= y->num` exactly as written: no zero check, so a zero divisor
   * has no defined result (None).
   */
  function ModAsWritten(x: int, y: int): (r: Option<int>)
    ensures r.None? <==> y == 0
    ensures r.Some? ==> x == TDiv(x, y) * y + r.value
  {
    if y == 0 then None else Some(TMod(x, y))
  }

  /** The `while (v->count > 0)` loop of `builtin_op`: fold left, stopping at a division by zero. */
  function ArithFold(op: ArithOp, acc: int, ys: seq<int>): (r: Value)
    ensures r.Num? || r == Err(DivisionByZero)
    decreases |ys|
  {
    if |ys| == 0 then Num(acc)
    else match ArithStep(op, acc, ys[0])
      case None => Err(DivisionByZero)
      case Some(a) => ArithFold(op, a, ys[1..])
  }

  predicate AllNumbers(args: seq<Value>)
  {
    forall i :: 0 <= i < |args| ==> args[i].Num?
  }

  function Numbers(args: seq<Value>): (ns: seq<int>)
    requires AllNumbers(args)
    ensures |ns| == |args| && forall i :: 0 <= i < |args| ==> ns[i] == args[i].n
  {
    seq(|args|, i requires 0 <= i < |args| => args[i].n)
  }

  /**
   * `builtin_op`. The caller always passes at least one argument (the
   * evaluator applies a function only to two or more cells, the operator
   * being one of them); `lval_pop(v, 0)` on an empty list is out of bounds.
   */
  function BuiltinOp(op: ArithOp, args: seq<Value>): (r: Value)
    requires |args| >= 1
    ensures r == Err(InvalidNumber) <==> !AllNumbers(args)
    ensures r.Num? || r.Err?
  {
    if !AllNumbers(args) then Err(InvalidNumber)
    else
      var (x, rest) := Cells.Pop(args, 0);
      if op == Sub && |rest| == 0 then Num(-x.n)
      else ArithFold(op, x.n, Numbers(rest))
  }

  /** Reference definitions the fold is compared with. */
  function Sum(ns: seq<int>): int
  {
    if |ns| == 0 then 0 else ns[0] + Sum(ns[1..])
  }

  function Product(ns: seq<int>): int
  {
    if |ns| == 0 then 1 else ns[0] * Product(ns[1..])
  }

  predicate IsLeast(m: int, ns: seq<int>)
  {
    m in ns && forall i :: 0 <= i < |ns| ==> m <= ns[i]
  }

  predicate IsGreatest(m: int, ns: seq<int>)
  {
    m in ns && forall i :: 0 <= i < |ns| ==> m >= ns[i]
  }

  lemma {:induction false} FoldAdd(acc: int, ys: seq<int>)
    ensures ArithFold(Add, acc, ys) == Num(acc + Sum(ys))
    decreases |ys|
  {
    if |ys| > 0 {
      FoldAdd(acc + ys[0], ys[1..]);
    }
  }

  lemma {:induction false} FoldSub(acc: int, ys: seq<int>)
    ensures ArithFold(Sub, acc, ys) == Num(acc - Sum(ys))
    decreases |ys|
  {
    if |ys| > 0 {
      FoldSub(acc - ys[0], ys[1..]);
    }
  }

  lemma {:induction false} FoldMul(acc: int, ys: seq<int>)
    ensures ArithFold(Mul, acc, ys) == Num(acc * Product(ys))
    decreases |ys|
  {
    if |ys| > 0 {
      var p := Product(ys[1..]);
      FoldMul(acc * ys[0], ys[1..]);
      MulAssoc(acc, ys[0], p);
    }
  }

  lemma MulAssoc(a: int, b: int, c: int)
    ensures a * b * c == a * (b * c)
  {
  }

  lemma {:induction false} FoldMin(acc: int, ys: seq<int>)
    ensures ArithFold(Min, acc, ys).Num? && IsLeast(ArithFold(Min, acc, ys).n, [acc] + ys)
    decreases |ys|
  {
    if |ys| > 0 {
      var a := ArithStep(Min, acc, ys[0]).value;
      FoldStepMin(acc, ys, a);
    }
  }

  lemma {:induction false} FoldStepMin(acc: int, ys: seq<int>, a: int)
    requires |ys| > 0 && ArithStep(Min, acc, ys[0]) == Some(a)
    ensures ArithFold(Min, acc, ys).Num? && IsLeast(ArithFold(Min, acc, ys).n, [acc] + ys)
    decreases |ys|, 0
  {
    FoldMin(a, ys[1..]);
    var m := ArithFold(Min, a, ys[1..]).n;
    var all := [acc] + ys;
    assert all == [acc, ys[0]] + ys[1..];
    assert m in [a] + ys[1..];
    assert a == acc || a == ys[0];
    var rest := [a] + ys[1..];
    forall i | 0 <= i < |all|
      ensures m <= all[i]
    {
      assert m <= rest[0];
      if i >= 2 {
        assert all[i] == rest[i - 1];
      }
    }
  }

  lemma {:induction false} FoldMax(acc: int, ys: seq<int>)
    ensures ArithFold(Max, acc, ys).Num? && IsGreatest(ArithFold(Max, acc, ys).n, [acc] + ys)
    decreases |ys|
  {
    if |ys| > 0 {
      var a := ArithStep(Max, acc, ys[0]).value;
      FoldStepMax(acc, ys, a);
    }
  }

  lemma {:induction false} FoldStepMax(acc: int, ys: seq<int>, a: int)
    requires |ys| > 0 && ArithStep(Max, acc, ys[0]) == Some(a)
    ensures ArithFold(Max, acc, ys).Num? && IsGreatest(ArithFold(Max, acc, ys).n, [acc] + ys)
    decreases |ys|, 0
  {
    FoldMax(a, ys[1..]);
    var m := ArithFold(Max, a, ys[1..]).n;
    var all := [acc] + ys;
    assert all == [acc, ys[0]] + ys[1..];
    assert m in [a] + ys[1..];
    assert a == acc || a == ys[0];
    var rest := [a] + ys[1..];
    forall i | 0 <= i < |all|
      ensures m >= all[i]
    {
      assert m >= rest[0];
      if i >= 2 {
        assert all[i] == rest[i - 1];
      }
    }
  }

  /** `/` and `%` fail exactly when some divisor is zero, whatever the quotients. */
  lemma {:induction false} FoldDivideByZero(op: ArithOp, acc: int, ys: seq<int>)
    requires op == Div || op == Mod
    ensures ArithFold(op, acc, ys) == Err(DivisionByZero) <==> 0 in ys
    decreases |ys|
  {
    if |ys| > 0 && ys[0] != 0 {
      FoldDivideByZero(op, ArithStep(op, acc, ys[0]).value, ys[1..]);
      assert 0 in ys <==> 0 in ys[1..];
    }
  }

  predicate NonZero(ys: seq<int>)
  {
    forall i :: 0 <= i < |ys| ==> ys[i] != 0
  }

  /** `/` through nonzero divisors: each quotient truncated toward zero in turn. */
  function Quotients(acc: int, ys: seq<int>): (q: int)
    requires NonZero(ys)
    ensures Abs(q) <= Abs(acc)
    decreases |ys|
  {
    if |ys| == 0 then acc
    else
      DivShrinks(acc, ys[0]);
      Quotients(TDiv(acc, ys[0]), ys[1..])
  }

  /** `%` through nonzero divisors: the remainder keeps the dividend's sign and is below every divisor. */
  function Remainders(acc: int, ys: seq<int>): (r: int)
    requires NonZero(ys)
    ensures Abs(r) <= Abs(acc)
    ensures r == 0 || ((r < 0) <==> (acc < 0))
    ensures forall i :: 0 <= i < |ys| ==> Abs(r) < Abs(ys[i])
    decreases |ys|
  {
    if |ys| == 0 then acc
    else
      var m := TMod(acc, ys[0]);
      ModShrinks(acc, ys[0]);
      var r := Remainders(m, ys[1..]);
      assert forall i :: 1 <= i < |ys| ==> ys[i] == ys[1..][i - 1];
      r
  }

  /** A truncated quotient is no larger in magnitude than the dividend. */
  lemma DivShrinks(a: int, b: int)
    requires b != 0
    ensures Abs(TDiv(a, b)) <= Abs(a)
  {
    var q := TDiv(a, b);
    assert Abs(q) <= Abs(q) * Abs(b);
  }

  /** A C remainder is no larger in magnitude than the dividend. */
  lemma ModShrinks(a: int, b: int)
    requires b != 0
    ensures Abs(TMod(a, b)) <= Abs(a)
  {
    var q := TDiv(a, b);
    SignOfProduct(q, b, a);
  }

  /** With no zero divisor, the `/` fold is the chain of truncated quotients. */
  lemma {:induction false} FoldDivide(acc: int, ys: seq<int>)
    requires NonZero(ys)
    ensures ArithFold(Div, acc, ys) == Num(Quotients(acc, ys))
    decreases |ys|
  {
    if |ys| > 0 {
      FoldDivide(TDiv(acc, ys[0]), ys[1..]);
    }
  }

  /** With no zero divisor, the `%` fold is the chain of C remainders. */
  lemma {:induction false} FoldRemainder(acc: int, ys: seq<int>)
    requires NonZero(ys)
    ensures ArithFold(Mod, acc, ys) == Num(Remainders(acc, ys))
    decreases |ys|
  {
    if |ys| > 0 {
      FoldRemainder(TMod(acc, ys[0]), ys[1..]);
    }
  }

  /** C truncates: -7 / 2 is -3 and -7 % 2 is -1, where Euclidean division gives -4 and 1. */
  lemma TruncatedDivision()
    ensures ArithStep(Div, -7, 2) == Some(-3)
    ensures ArithStep(Mod, -7, 2) == Some(-1)
    ensures ArithStep(Div, 7, -2) == Some(-3)
    ensures ArithStep(Mod, 7, -2) == Some(1)
  {
  }

  /**
   * What `builtin_op` computes on numbers: the fold from the first operand
   * through the rest, a lone `-` negating.
   */
  lemma BuiltinOpNumbers(op: ArithOp, args: seq<Value>)
    requires |args| >= 1 && AllNumbers(args)
    ensures var ns := Numbers(args);
      && (op == Add ==> BuiltinOp(op, args) == Num(Sum(ns)))
      && (op == Sub && |args| == 1 ==> BuiltinOp(op, args) == Num(-ns[0]))
      && (op == Sub && |args| > 1 ==> BuiltinOp(op, args) == Num(ns[0] - Sum(ns[1..])))
      && (op == Mul ==> BuiltinOp(op, args) == Num(Product(ns)))
      && (op == Min ==> BuiltinOp(op, args).Num? && IsLeast(BuiltinOp(op, args).n, ns))
      && (op == Max ==> BuiltinOp(op, args).Num? && IsGreatest(BuiltinOp(op, args).n, ns))
      && (op == Div || op == Mod ==>
            (BuiltinOp(op, args) == Err(DivisionByZero) <==> 0 in ns[1..]))
      && (op == Div && NonZero(ns[1..]) ==> BuiltinOp(op, args) == Num(Quotients(ns[0], ns[1..])))
      && (op == Mod && NonZero(ns[1..]) ==> BuiltinOp(op, args) == Num(Remainders(ns[0], ns[1..])))
  {
    var ns := Numbers(args);
    var rest := args[1..];
    Cells.PopFirst(args);
    assert Numbers(rest) == ns[1..];
    assert ns == [ns[0]] + ns[1..];
    match op
    case Add => FoldAdd(ns[0], ns[1..]);
    case Sub => FoldSub(ns[0], ns[1..]);
    case Mul => FoldMul(ns[0], ns[1..]);
    case Min => FoldMin(ns[0], ns[1..]);
    case Max => FoldMax(ns[0], ns[1..]);
    case Div =>
      FoldDivideByZero(op, ns[0], ns[1..]);
      if NonZero(ns[1..]) { FoldDivide(ns[0], ns[1..]); }
    case Mod =>
      FoldDivideByZero(op, ns[0], ns[1..]);
      if NonZero(ns[1..]) { FoldRemainder(ns[0], ns[1..]); }
    case Pow =>
  }

  /** `(^ x y)`: exact power for a non-negative exponent; zero to a negative power is an error. */
  lemma BuiltinOpPower(x: int, y: int)
    ensures BuiltinOp(Pow, [Num(x), Num(y)]) ==
      if x == 0 && y < 0 then Err(DivisionByZero) else Num(Power(x, y))
    ensures y >= 0 ==> BuiltinOp(Pow, [Num(x), Num(y)]) == Num(NatPow(x, y))
  {
    var args := [Num(x), Num(y)];
    Cells.PopFirst(args);
    assert Cells.Pop(args, 0).0 == Num(x);
    assert Numbers(args[1..]) == [y];
    assert [y][1..] == [];
    assert BuiltinOp(Pow, args) == ArithFold(Pow, x, [y]);
    assert ArithFold(Pow, x, [y]) == match ArithStep(Pow, x, y)
      case None => Err(DivisionByZero)
      case Some(a) => ArithFold(Pow, a, []);
  }

  /** `%` by zero: undefined as written, the division-by-zero error as intended. */
  lemma ModByZero()
    ensures ModAsWritten(7, 0).None?
    ensures BuiltinOp(Mod, [Num(7), Num(0)]) == Err(DivisionByZero)
  {
    FoldDivideByZero(Mod, 7, [0]);
    assert Numbers([Num(7), Num(0)][1..]) == [0];
  }

  // ----- list builtins --------------------------------------------------------

  /** The first two guards shared by `head`, `tail`, `init`, `len` and `eval`. */
  function ArgGuard(args: seq<Value>): (r: Option<string>)
    ensures r.None? <==> |args| == 1 && args[0].QExpr?
    ensures r.Some? ==> r.value == (if |args| != 1 then TooManyArguments else InvalidType)
  {
    if |args| != 1 then Some(TooManyArguments)
    else if !args[0].QExpr? then Some(InvalidType)
    else None
  }

  /** The three guards of `head`, `tail`, `init` and `len`, checked in this order. */
  function ListGuard(args: seq<Value>): (r: Option<string>)
    ensures r.None? <==> |args| == 1 && args[0].QExpr? && |args[0].cells| > 0
    ensures |args| != 1 ==> r == Some(TooManyArguments)
    ensures |args| == 1 && !args[0].QExpr? ==> r == Some(InvalidType)
    ensures |args| == 1 && args[0].QExpr? && |args[0].cells| == 0 ==> r == Some(InvalidSyntax)
  {
    if ArgGuard(args).Some? then ArgGuard(args)
    else if |args[0].cells| == 0 then Some(InvalidSyntax)
    else None
  }

  /** The loop `while (x->count > 1) lval_pop(x, 1)` of `builtin_head`. */
  function KeepFirst(cells: seq<Value>): (r: seq<Value>)
    requires |cells| >= 1
    ensures r == cells[..1]
    decreases |cells|
  {
    if |cells| <= 1 then cells else KeepFirst(Cells.Pop(cells, 1).1)
  }

  /** `list`: the argument cells, retagged as a Q-expression. */
  function BuiltinList(args: seq<Value>): (r: Value)
    ensures r.QExpr? && r.cells == args
  {
    QExpr(args)
  }

  /** `head`. */
  function BuiltinHead(args: seq<Value>): (r: Value)
    ensures ListGuard(args).Some? ==> r == Err(ListGuard(args).value)
    ensures ListGuard(args).None? ==> r == QExpr([args[0].cells[0]])
  {
    match ListGuard(args)
    case Some(m) => Err(m)
    case None =>
      var x := Cells.Take(args, 0).cells;
      assert x[..1] == [x[0]];
      QExpr(KeepFirst(x))
  }

  /** `tail`. */
  function BuiltinTail(args: seq<Value>): (r: Value)
    ensures ListGuard(args).Some? ==> r == Err(ListGuard(args).value)
    ensures ListGuard(args).None? ==> r == QExpr(args[0].cells[1..])
  {
    match ListGuard(args)
    case Some(m) => Err(m)
    case None =>
      var x := Cells.Take(args, 0).cells;
      Cells.PopFirst(x);
      QExpr(Cells.Pop(x, 0).1)
  }

  /** `init`. */
  function BuiltinInit(args: seq<Value>): (r: Value)
    ensures ListGuard(args).Some? ==> r == Err(ListGuard(args).value)
    ensures ListGuard(args).None? ==> r == QExpr(args[0].cells[..|args[0].cells| - 1])
  {
    match ListGuard(args)
    case Some(m) => Err(m)
    case None =>
      var x := Cells.Take(args, 0).cells;
      Cells.PopLast(x);
      QExpr(Cells.Pop(x, |x| - 1).1)
  }

  /** `len`. */
  function BuiltinLen(args: seq<Value>): (r: Value)
    ensures ListGuard(args).Some? ==> r == Err(ListGuard(args).value)
    ensures ListGuard(args).None? ==> r == Num(|args[0].cells|)
  {
    match ListGuard(args)
    case Some(m) => Err(m)
    case None => Num(|Cells.Take(args, 0).cells|)
  }

  predicate AllQExprs(args: seq<Value>)
  {
    forall i :: 0 <= i < |args| ==> args[i].QExpr?
  }

  /** The cells of a sequence of Q-expressions, end to end in order. */
  function Concat(qs: seq<Value>): seq<Value>
    requires AllQExprs(qs)
  {
    if |qs| == 0 then [] else qs[0].cells + Concat(qs[1..])
  }

  /** The loop `while (v->count) x = lval_join(x, lval_pop(v, 0))` of `builtin_join`. */
  function JoinRest(x: seq<Value>, rest: seq<Value>): (r: seq<Value>)
    requires AllQExprs(rest)
    ensures r == x + Concat(rest)
    decreases |rest|
  {
    if |rest| == 0 then x
    else
      var (q, more) := Cells.Pop(rest, 0);
      JoinRest(Cells.Join(x, q.cells), more)
  }

  /** `join`; like `builtin_op` it is only ever applied to one or more arguments. */
  function BuiltinJoin(args: seq<Value>): (r: Value)
    requires |args| >= 1
    ensures !AllQExprs(args) <==> r == Err(InvalidType)
    ensures AllQExprs(args) ==> r == QExpr(Concat(args))
  {
    if !AllQExprs(args) then Err(InvalidType)
    else
      var (x, rest) := Cells.Pop(args, 0);
      QExpr(JoinRest(x.cells, rest))
  }

  // ----- relations between the list builtins ----------------------------------

  /** The head and the tail of a list, put together, are the list. */
  lemma HeadTail(q: Value)
    requires q.QExpr? && |q.cells| > 0
    ensures BuiltinHead([q]).cells + BuiltinTail([q]).cells == q.cells
  {
  }

  /** The init of a list followed by its last cell is the list. */
  lemma InitLast(q: Value)
    requires q.QExpr? && |q.cells| > 0
    ensures BuiltinInit([q]).cells + [q.cells[|q.cells| - 1]] == q.cells
  {
  }

  /** The tail and the init are one shorter than the list. */
  lemma LenTailInit(q: Value)
    requires q.QExpr? && |q.cells| > 1
    ensures BuiltinLen([BuiltinTail([q])]) == Num(BuiltinLen([q]).n - 1)
    ensures BuiltinLen([BuiltinInit([q])]) == Num(BuiltinLen([q]).n - 1)
  {
  }

  /** `list` keeps its arguments: its head is the first, its length their count. */
  lemma ListHeadLen(xs: seq<Value>)
    requires |xs| > 0
    ensures BuiltinHead([BuiltinList(xs)]) == QExpr([xs[0]])
    ensures BuiltinLen([BuiltinList(xs)]) == Num(|xs|)
  {
  }

  lemma {:induction false} ConcatAppend(a: seq<Value>, b: seq<Value>)
    requires AllQExprs(a) && AllQExprs(b)
    ensures AllQExprs(a + b) && Concat(a + b) == Concat(a) + Concat(b)
    decreases |a|
  {
    if |a| == 0 {
      assert a + b == b;
    } else {
      assert (a + b)[1..] == a[1..] + b;
      ConcatAppend(a[1..], b);
    }
  }

  lemma ConcatPair(a: Value, b: Value)
    requires a.QExpr? && b.QExpr?
    ensures Concat([a, b]) == a.cells + b.cells
  {
    assert [a, b][1..] == [b];
    assert Concat([b]) == b.cells by { assert [b][1..] == []; }
  }

  /** Joining is associative. */
  lemma JoinAssociative(a: Value, b: Value, c: Value)
    requires a.QExpr? && b.QExpr? && c.QExpr?
    ensures BuiltinJoin([BuiltinJoin([a, b]), c]) == BuiltinJoin([a, BuiltinJoin([b, c])])
  {
    ConcatPair(a, b);
    ConcatPair(b, c);
    var ab, bc := BuiltinJoin([a, b]), BuiltinJoin([b, c]);
    assert ab == QExpr(a.cells + b.cells);
    assert bc == QExpr(b.cells + c.cells);
    ConcatPair(ab, c);
    ConcatPair(a, bc);
    assert (a.cells + b.cells) + c.cells == a.cells + (b.cells + c.cells);
  }
}
