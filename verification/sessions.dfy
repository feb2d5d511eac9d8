/**
 * Whole expressions evaluated in an environment that binds the builtins:
 * what typing `(+ 1 2 3)` or `(eval {+ 1 2})` at the prompt yields, under
 * the corrected evaluator and, for the operator check, as written.
 */
module Sessions {
  import opened Values
  import opened Environment
  import opened Builtins
  import opened Evaluator
  import LiteralEvaluator

  /** Values that evaluate to themselves and are not errors. */
  predicate Inert(v: Value)
  {
    v.Num? || v.Fun? || v.QExpr?
  }

  /** An environment in which `name` is bound to the builtin b. */
  predicate Binds(env: Env, name: string, b: Builtin)
  {
    FunctionsOnly(env) && Get(env, name) == Fun(b)
  }

  /** A call of a bound builtin on inert arguments applies the builtin to them unchanged. */
  lemma CallBuiltin(env: Env, name: string, b: Builtin, args: seq<Value>)
    requires Binds(env, name, b)
    requires |args| >= 1 && forall i :: 0 <= i < |args| ==> Inert(args[i])
    ensures EvalValue(env, SExpr([Sym(name)] + args)) == Apply(env, b, args)
  {
    var cells := [Sym(name)] + args;
    assert cells[1..] == args;
    InertCells(env, args);
    forall j | 0 <= j < |cells|
      ensures !EvalValue(env, cells[j]).Err?
    {
      if j > 0 {
        assert cells[j] == args[j - 1];
      }
    }
    Application(env, cells);
  }

  /** Inert cells evaluate to themselves. */
  lemma InertCells(env: Env, args: seq<Value>)
    requires FunctionsOnly(env)
    requires forall i :: 0 <= i < |args| ==> Inert(args[i])
    ensures EvalCells(env, args) == args
  {
    EvalCellsPointwise(env, args);
  }

  /** The initial environment binds every builtin under its registered name. */
  lemma InitialBinds(b: Builtin)
    ensures Binds(InitialEnv(), BuiltinName(b), b)
  {
    InitialEnvContents(BuiltinName(b));
    AddBuiltinsGet([], b);
  }

  /** `(+ 1 2 3)` is 6. */
  lemma SumSession(env: Env)
    requires Binds(env, "+", Arith(Add))
    ensures EvalValue(env, SExpr([Sym("+"), Num(1), Num(2), Num(3)])) == Num(6)
  {
    var args := [Num(1), Num(2), Num(3)];
    CallBuiltin(env, "+", Arith(Add), args);
    assert [Sym("+")] + args == [Sym("+"), Num(1), Num(2), Num(3)];
    BuiltinOpNumbers(Add, args);
    assert Numbers(args) == [1, 2, 3];
    assert Sum([1, 2, 3]) == 6 by {
      assert [1, 2, 3][1..] == [2, 3];
      assert [2, 3][1..] == [3];
    }
  }

  /** `(- 5)` is -5: a lone operand of `-` is negated. */
  lemma NegateSession(env: Env)
    requires Binds(env, "-", Arith(Sub))
    ensures EvalValue(env, SExpr([Sym("-"), Num(5)])) == Num(-5)
  {
    CallBuiltin(env, "-", Arith(Sub), [Num(5)]);
    BuiltinOpNumbers(Sub, [Num(5)]);
  }

  /** `(/ 10 0)` is the division-by-zero error. */
  lemma DivideByZeroSession(env: Env)
    requires Binds(env, "/", Arith(Div))
    ensures EvalValue(env, SExpr([Sym("/"), Num(10), Num(0)])) == Err(DivisionByZero)
  {
    var args := [Num(10), Num(0)];
    CallBuiltin(env, "/", Arith(Div), args);
    assert [Sym("/")] + args == [Sym("/"), Num(10), Num(0)];
    FoldDivideByZero(Div, 10, [0]);
    assert Numbers(args[1..]) == [0];
  }

  /** `(head {1 2 3})` is `{1}`. */
  lemma HeadSession(env: Env)
    requires Binds(env, "head", Head)
    ensures EvalValue(env, SExpr([Sym("head"), QExpr([Num(1), Num(2), Num(3)])])) == QExpr([Num(1)])
  {
    CallBuiltin(env, "head", Head, [QExpr([Num(1), Num(2), Num(3)])]);
  }

  /** `(tail {1 2 3})` is `{2 3}`. */
  lemma TailSession(env: Env)
    requires Binds(env, "tail", Tail)
    ensures EvalValue(env, SExpr([Sym("tail"), QExpr([Num(1), Num(2), Num(3)])])) == QExpr([Num(2), Num(3)])
  {
    var q := QExpr([Num(1), Num(2), Num(3)]);
    CallBuiltin(env, "tail", Tail, [q]);
    assert q.cells[1..] == [Num(2), Num(3)];
  }

  /** `(join {1} {2 3})` is `{1 2 3}`. */
  lemma JoinSession(env: Env)
    requires Binds(env, "join", Join)
    ensures EvalValue(env, SExpr([Sym("join"), QExpr([Num(1)]), QExpr([Num(2), Num(3)])])) == QExpr([Num(1), Num(2), Num(3)])
  {
    var a, b := QExpr([Num(1)]), QExpr([Num(2), Num(3)]);
    CallBuiltin(env, "join", Join, [a, b]);
    assert [Sym("join")] + [a, b] == [Sym("join"), a, b];
    ConcatPair(a, b);
    assert BuiltinJoin([a, b]) == QExpr(a.cells + b.cells);
  }

  /** `(len {1 2 3})` is 3. */
  lemma LenSession(env: Env)
    requires Binds(env, "len", Len)
    ensures EvalValue(env, SExpr([Sym("len"), QExpr([Num(1), Num(2), Num(3)])])) == Num(3)
  {
    CallBuiltin(env, "len", Len, [QExpr([Num(1), Num(2), Num(3)])]);
  }

  /** `(eval {+ 1 2})` is 3: the quoted list runs as an S-expression. */
  lemma EvalSession(env: Env)
    requires Binds(env, "eval", Eval) && Binds(env, "+", Arith(Add))
    ensures EvalValue(env, SExpr([Sym("eval"), QExpr([Sym("+"), Num(1), Num(2)])])) == Num(3)
  {
    var cells := [Sym("+"), Num(1), Num(2)];
    CallBuiltin(env, "eval", Eval, [QExpr(cells)]);
    EvalOfQuote(env, cells);
    AddSession(env);
  }

  /** `(+ 1 2)` is 3. */
  lemma AddSession(env: Env)
    requires Binds(env, "+", Arith(Add))
    ensures EvalValue(env, SExpr([Sym("+"), Num(1), Num(2)])) == Num(3)
  {
    var cells := [Sym("+"), Num(1), Num(2)];
    CallBuiltin(env, "+", Arith(Add), [Num(1), Num(2)]);
    assert [Sym("+")] + [Num(1), Num(2)] == cells;
    BuiltinOpNumbers(Add, [Num(1), Num(2)]);
    assert Numbers([Num(1), Num(2)]) == [1, 2];
    assert Sum([1, 2]) == 3 by { assert [1, 2][1..] == [2]; }
  }

  /** An unbound name in front makes the whole expression the unbound-symbol error. */
  lemma UnboundSession(env: Env, name: string, rest: seq<Value>)
    requires FunctionsOnly(env) && !Bound(env, name)
    ensures EvalValue(env, SExpr([Sym(name)] + rest)) == Err(UnboundSymbol)
  {
    EvalSymbol(env, name);
    ErrorPropagates(env, [Sym(name)] + rest, 0);
  }

  /** `(1 2)`: a number in front is the invalid-symbol error. */
  lemma NotAFunctionSession(env: Env)
    requires FunctionsOnly(env)
    ensures EvalValue(env, SExpr([Num(1), Num(2)])) == Err(InvalidSymbol)
  {
    Application(env, [Num(1), Num(2)]);
  }

  /**
   * `(+ 1 2)` as written: every cell evaluates to a non-error, the head to
   * the `+` function, so the inverted operator check rejects it, while the
   * corrected check applies `+`.
   */
  lemma OperatorCheckFinding(env: Env)
    requires Binds(env, "+", Arith(Add))
    ensures LiteralEvaluator.LiteralEval(env, SExpr([Sym("+"), Num(1), Num(2)])) == Err(InvalidSymbol)
    ensures EvalValue(env, SExpr([Sym("+"), Num(1), Num(2)])) == Num(3)
  {
    var cells := [Sym("+"), Num(1), Num(2)];
    assert LiteralEvaluator.LiteralEval(env, cells[0]) == Fun(Arith(Add));
    LiteralEvaluator.LiteralNeverApplies(env, cells);
    AddSession(env);
  }
}
