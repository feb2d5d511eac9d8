/**
 * `lval_eval_sexpr` with its operator check as written: the head of an
 * application must NOT be a function-typed value but a symbol
 * (`f->type != LVAL_SYM` is the error branch). Every symbol in head position
 * has already been replaced by its binding, and the environment holds only
 * functions, so no evaluated head is a symbol and no builtin is ever applied:
 * every application of two or more cells is an error. The error scan is the
 * corrected one (Evaluator.FirstError), so that this variant differs from
 * Evaluator.EvalValue in the operator check alone.
 */
module LiteralEvaluator {
  import opened Options
  import opened Values
  import opened Environment
  import Evaluator

  function LiteralEval(env: Env, v: Value): (r: Value)
    requires FunctionsOnly(env)
    ensures !r.Sym?
    decreases v
  {
    match v
    case Sym(name) => FunctionsOnlyGet(env, name); Get(env, name)
    case SExpr(cells) =>
      var vs := seq(|cells|, i requires 0 <= i < |cells| => LiteralEval(env, cells[i]));
      LiteralCombine(vs)
    case _ => v
  }

  /** Everything after the first loop of `lval_eval_sexpr`, as written. */
  function LiteralCombine(vs: seq<Value>): (r: Value)
    requires forall i :: 0 <= i < |vs| ==> !vs[i].Sym?
    ensures |vs| >= 2 ==> r.Err?
  {
    match Evaluator.FirstError(vs)
    case Some(i) => vs[i]
    case None =>
      if |vs| == 0 then SExpr(vs)
      else if |vs| == 1 then vs[0]
      else if vs[0].Sym? then
        // `f->fun(e, v)` on a symbol, whose function field is never set:
        // unreachable, since no evaluated cell is a symbol
        assert false; Err(InvalidSymbol)
      else Err(InvalidSymbol)
  }

  /**
   * As written, an S-expression of two or more cells never reaches a
   * builtin: its value is the first error among its cells, or else the
   * invalid-symbol error.
   */
  lemma LiteralNeverApplies(env: Env, cells: seq<Value>)
    requires FunctionsOnly(env)
    requires |cells| >= 2
    ensures LiteralEval(env, SExpr(cells)).Err?
    ensures (forall i :: 0 <= i < |cells| ==> !LiteralEval(env, cells[i]).Err?) ==>
      LiteralEval(env, SExpr(cells)) == Err(InvalidSymbol)
  {
    var vs := seq(|cells|, i requires 0 <= i < |cells| => LiteralEval(env, cells[i]));
    assert LiteralEval(env, SExpr(cells)) == LiteralCombine(vs);
  }
}
