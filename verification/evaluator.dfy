/**
 * The evaluator `lval_eval` / `lval_eval_sexpr` and function application,
 * including the `eval` builtin, which re-enters the evaluator on a quoted
 * list. Evaluation terminates because a result is never larger than its input
 * (Size), so the list the `eval` builtin runs is smaller than the
 * S-expression that called it. That needs an environment of functions only,
 * which is the only kind the interpreter builds (Environment.InitialEnvContents).
 *
 * Two defects of the C are corrected here (see ErrorScanAsWritten and
 * LiteralEvaluator for the code as written): the error scan returns the
 * first error itself, and the operator check asks for a function.
 */
module Evaluator {
  import opened Options
  import opened Values
  import opened Environment
  import opened Builtins
  import Cells

  /** The index of the first error among the cells, scanning from the left. */
  function FirstError(cells: seq<Value>): (r: Option<nat>)
    ensures r.None? <==> forall i :: 0 <= i < |cells| ==> !cells[i].Err?
    ensures r.Some? ==> r.value < |cells| && cells[r.value].Err?
    ensures r.Some? ==> forall j :: 0 <= j < r.value ==> !cells[j].Err?
  {
    if |cells| == 0 then None
    else if cells[0].Err? then Some(0)
    else match FirstError(cells[1..])
      case Some(i) => Some(i + 1)
      case None => None
  }

  /** What the scan `if (v->cell[i]->type == LVAL_ERR) return lval_take(v, 1)` returns. */
  datatype ScanOutcome = NoError | Returns(v: Value) | OutOfBounds

  /**
   * The error scan as written: on finding an error anywhere it returns cell 1,
   * which need not be the error, and is past the end of a one-cell list.
   */
  function ErrorScanAsWritten(cells: seq<Value>): (r: ScanOutcome)
    ensures r.NoError? <==> FirstError(cells).None?
    ensures r.Returns? ==> |cells| >= 2 && r.v == cells[1]
    ensures r.OutOfBounds? <==> FirstError(cells).Some? && |cells| < 2
  {
    if FirstError(cells).None? then NoError
    else if |cells| > 1 then Returns(Cells.Take(cells, 1))
    else OutOfBounds
  }

  /** `(x 5)` with x unbound evaluates its cells to these two values. */
  lemma ErrorScanFinding()
    ensures ErrorScanAsWritten([Err(UnboundSymbol), Num(5)]) == Returns(Num(5))
    ensures ErrorScanAsWritten([Err(UnboundSymbol)]) == OutOfBounds
    ensures FirstError([Err(UnboundSymbol), Num(5)]) == Some(0)
    ensures FirstError([Err(UnboundSymbol)]) == Some(0)
  {
  }

  /** `lval_eval`. */
  function EvalValue(env: Env, v: Value): (r: Value)
    requires FunctionsOnly(env)
    ensures v.Sym? ==> r == Get(env, v.name)
    ensures !v.Sym? && !v.SExpr? ==> r == v
    ensures Size(r) <= Size(v)
    ensures NormalForm(r)
    decreases Size(v), 3
  {
    match v
    case Sym(name) => Get(env, name)
    case SExpr(cells) => EvalSExpr(env, cells)
    case _ => v
  }

  /** `lval_eval_sexpr`, with the corrected error scan and operator check. */
  function EvalSExpr(env: Env, cells: seq<Value>): (r: Value)
    requires FunctionsOnly(env)
    ensures Size(r) <= 1 + SumSizes(cells)
    ensures NormalForm(r)
    decreases 1 + SumSizes(cells), 2
  {
    var vs := EvalCells(env, cells);
    match FirstError(vs)
    case Some(i) => vs[i]
    case None =>
      if |vs| == 0 then SExpr(vs)
      else if |vs| == 1 then Cells.Take(vs, 0)
      else
        var (f, args) := Cells.Pop(vs, 0);
        Cells.PopFirst(vs);
        if !f.Fun? then Err(InvalidSymbol)
        else Apply(env, f.fn, args)
  }

  /** The first loop of `lval_eval_sexpr`: every cell, evaluated in place. */
  function EvalCells(env: Env, cells: seq<Value>): (r: seq<Value>)
    requires FunctionsOnly(env)
    ensures |r| == |cells|
    ensures SumSizes(r) <= SumSizes(cells)
    ensures forall i :: 0 <= i < |r| ==> NormalForm(r[i])
    decreases SumSizes(cells), 4
  {
    if |cells| == 0 then []
    else
      var r := [EvalValue(env, cells[0])] + EvalCells(env, cells[1..]);
      assert r[1..] == EvalCells(env, cells[1..]);
      r
  }

  /** `f->fun(e, v)`: a builtin applied to the argument cells after the operator. */
  function Apply(env: Env, b: Builtin, args: seq<Value>): (r: Value)
    requires FunctionsOnly(env)
    requires |args| >= 1
    ensures Size(r) <= 1 + SumSizes(args)
    ensures NormalForm(r)
    decreases SumSizes(args), 5
  {
    match b
    case List => BuiltinList(args)
    case Head => HeadSize(args); BuiltinHead(args)
    case Tail => TailSize(args); BuiltinTail(args)
    case Init => InitSize(args); BuiltinInit(args)
    case Len => BuiltinLen(args)
    case Join => JoinSize(args); BuiltinJoin(args)
    case Arith(op) => BuiltinOp(op, args)
    case Eval => EvalBuiltin(env, args)
  }

  /** `builtin_eval`: one quoted list, retagged as an S-expression and evaluated. */
  function EvalBuiltin(env: Env, args: seq<Value>): (r: Value)
    requires FunctionsOnly(env)
    ensures Size(r) <= 1 + SumSizes(args)
    ensures NormalForm(r)
    decreases SumSizes(args), 4
  {
    match ArgGuard(args)
    case Some(m) => Err(m)
    case None =>
      var q := Cells.Take(args, 0);
      assert SumSizes(args) == Size(q) by { assert args == [q]; }
      EvalValue(env, SExpr(q.cells))
  }

  // ----- size bounds of the builtins ------------------------------------------

  lemma HeadSize(args: seq<Value>)
    ensures Size(BuiltinHead(args)) <= 1 + SumSizes(args)
  {
    if ListGuard(args).None? {
      SumSizesElement(args[0].cells, 0);
    }
  }

  lemma TailSize(args: seq<Value>)
    ensures Size(BuiltinTail(args)) <= 1 + SumSizes(args)
  {
    if ListGuard(args).None? {
      var c := args[0].cells;
      assert SumSizes(c) == Size(c[0]) + SumSizes(c[1..]);
      assert SumSizes(args) == Size(args[0]) + SumSizes(args[1..]);
    }
  }

  lemma InitSize(args: seq<Value>)
    ensures Size(BuiltinInit(args)) <= 1 + SumSizes(args)
  {
    if ListGuard(args).None? {
      var c := args[0].cells;
      SumSizesSplit(c, |c| - 1);
    }
  }

  lemma JoinSize(args: seq<Value>)
    requires |args| >= 1
    ensures Size(BuiltinJoin(args)) <= 1 + SumSizes(args)
  {
    if AllQExprs(args) {
      ConcatSize(args);
    }
  }

  lemma {:induction false} ConcatSize(qs: seq<Value>)
    requires AllQExprs(qs)
    ensures SumSizes(Concat(qs)) + |qs| == SumSizes(qs)
    decreases |qs|
  {
    if |qs| > 0 {
      ConcatSize(qs[1..]);
      SumSizesAppend(qs[0].cells, Concat(qs[1..]));
    }
  }

  // ----- properties of evaluation ---------------------------------------------

  /** Every cell is evaluated on its own: the i-th result is the i-th cell's value. */
  lemma {:induction false} EvalCellsPointwise(env: Env, cells: seq<Value>)
    requires FunctionsOnly(env)
    ensures forall i :: 0 <= i < |cells| ==> EvalCells(env, cells)[i] == EvalValue(env, cells[i])
    decreases |cells|
  {
    if |cells| > 0 {
      EvalCellsPointwise(env, cells[1..]);
      var r := EvalCells(env, cells);
      assert forall i :: 1 <= i < |cells| ==> r[i] == EvalCells(env, cells[1..])[i - 1];
    }
  }

  /** Evaluation reaches a normal form in one step: evaluating again changes nothing. */
  lemma EvalIdempotent(env: Env, v: Value)
    requires FunctionsOnly(env)
    ensures EvalValue(env, EvalValue(env, v)) == EvalValue(env, v)
  {
    var r := EvalValue(env, v);
    if r.SExpr? {
      assert r.cells == [];
      assert EvalCells(env, []) == [];
    }
  }

  /**
   * A symbol evaluates to the function bound to it, the first binding of the
   * name, or to the unbound error.
   */
  lemma EvalSymbol(env: Env, k: string)
    requires FunctionsOnly(env)
    ensures EvalValue(env, Sym(k)).Fun? || EvalValue(env, Sym(k)) == Err(UnboundSymbol)
    ensures Bound(env, k) <==> EvalValue(env, Sym(k)).Fun?
    ensures Bound(env, k) ==> EvalValue(env, Sym(k)) == env[IndexOf(env, k).value].val
  {
    FunctionsOnlyGet(env, k);
  }

  /** Numbers, errors, functions and Q-expressions evaluate to themselves. */
  lemma EvalInert(env: Env, v: Value)
    requires FunctionsOnly(env)
    requires v.Num? || v.Err? || v.Fun? || v.QExpr?
    ensures EvalValue(env, v) == v
  {
  }

  /**
   * The first cell that evaluates to an error is the value of the whole
   * S-expression; nothing is applied.
   */
  lemma ErrorPropagates(env: Env, cells: seq<Value>, i: nat)
    requires FunctionsOnly(env)
    requires i < |cells| && EvalValue(env, cells[i]).Err?
    requires forall j :: 0 <= j < i ==> !EvalValue(env, cells[j]).Err?
    ensures EvalValue(env, SExpr(cells)) == EvalValue(env, cells[i])
  {
    EvalCellsPointwise(env, cells);
    var vs := EvalCells(env, cells);
    var k := FirstError(vs).value;
    assert !(k < i) && !(i < k);
  }

  /** `()` is returned as it is, and `(x)` is the value of x. */
  lemma EmptyAndSingle(env: Env, c: Value)
    requires FunctionsOnly(env)
    ensures EvalValue(env, SExpr([])) == SExpr([])
    ensures EvalValue(env, SExpr([c])) == EvalValue(env, c)
  {
    assert EvalCells(env, []) == [];
    EvalCellsPointwise(env, [c]);
  }

  /**
   * With two or more cells and no error among their values, a function in
   * front is applied to the values of the rest; anything else in front is
   * the invalid-symbol error.
   */
  lemma Application(env: Env, cells: seq<Value>)
    requires FunctionsOnly(env)
    requires |cells| >= 2
    requires forall j :: 0 <= j < |cells| ==> !EvalValue(env, cells[j]).Err?
    ensures var f := EvalValue(env, cells[0]);
      && (!f.Fun? ==> EvalValue(env, SExpr(cells)) == Err(InvalidSymbol))
      && (f.Fun? ==> EvalValue(env, SExpr(cells)) == Apply(env, f.fn, EvalCells(env, cells[1..])))
  {
    EvalCellsPointwise(env, cells);
    var vs := EvalCells(env, cells);
    assert vs[0] == EvalValue(env, cells[0]);
    assert FirstError(vs).None?;
    assert vs[1..] == EvalCells(env, cells[1..]);
    Cells.PopFirst(vs);
  }

  /** The `eval` builtin runs a quoted list as an S-expression. */
  lemma EvalOfQuote(env: Env, cells: seq<Value>)
    requires FunctionsOnly(env)
    ensures Apply(env, Eval, [QExpr(cells)]) == EvalValue(env, SExpr(cells))
  {
  }

  /** The guards of the `eval` builtin: exactly one argument, a quoted list. */
  lemma EvalBuiltinGuards(env: Env, args: seq<Value>)
    requires FunctionsOnly(env)
    ensures |args| != 1 ==> EvalBuiltin(env, args) == Err(TooManyArguments)
    ensures |args| == 1 && !args[0].QExpr? ==> EvalBuiltin(env, args) == Err(InvalidType)
  {
  }

  /** Quoting with `list` and running with `eval` is evaluation. */
  lemma EvalOfList(env: Env, cells: seq<Value>)
    requires FunctionsOnly(env)
    ensures EvalBuiltin(env, [BuiltinList(cells)]) == EvalValue(env, SExpr(cells))
  {
  }
}
