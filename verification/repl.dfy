/**
 * The earlier arithmetic evaluator of `repl.c`: a value is a number or one
 * of three error codes, `eval_op` combines two values under an operator
 * name, and `eval` folds the operands of one operator over the parse tree.
 */
module Repl {
  import opened Options
  import opened CArith
  import opened Decimal
  import opened Ast
  import Values
  import Environment
  import Builtins

  datatype ErrCode = DivZero | BadOp | BadNum

  datatype RVal = RNum(n: int) | RErr(code: ErrCode)

  /** The operator names `eval_op` recognises. */
  predicate KnownOp(op: string)
  {
    op == "+" || op == "-" || op == "*" || op == "/" || op == "%" || op == "^" || op == "min" || op == "max"
  }

  /**
   * `eval_op`, with `%` by zero giving the division error (see
   * EvalOpAsWritten) and `^` as exact integer power, zero to a negative power
   * counting as a division by zero.
   */
  function EvalOp(x: RVal, op: string, y: RVal): (r: RVal)
    ensures x.RErr? ==> r == x
    ensures x.RNum? && y.RErr? ==> r == y
    ensures x.RNum? && y.RNum? ==> (r == RErr(BadOp) <==> !KnownOp(op))
    ensures x.RNum? && y.RNum? && KnownOp(op) ==>
      (r.RErr? <==> ((op == "/" || op == "%") && y.n == 0) || (op == "^" && x.n == 0 && y.n < 0))
    ensures x.RNum? && y.RNum? && op == "/" && y.n != 0 ==> r == RNum(TDiv(x.n, y.n))
    ensures x.RNum? && y.RNum? && op == "%" && y.n != 0 ==> r == RNum(TMod(x.n, y.n))
    ensures r.RErr? ==> x.RErr? || y.RErr? || r.code != BadNum
  {
    if x.RErr? then x
    else if y.RErr? then y
    else if op == "+" then RNum(x.n + y.n)
    else if op == "-" then RNum(x.n - y.n)
    else if op == "*" then RNum(x.n * y.n)
    else if op == "/" then (if y.n == 0 then RErr(DivZero) else RNum(TDiv(x.n, y.n)))
    else if op == "%" then (if y.n == 0 then RErr(DivZero) else RNum(TMod(x.n, y.n)))
    else if op == "^" then (if x.n == 0 && y.n < 0 then RErr(DivZero) else RNum(Power(x.n, y.n)))
    else if op == "min" then (if x.n > y.n then RNum(y.n) else RNum(x.n))
    else if op == "max" then (if x.n > y.n then RNum(x.n) else RNum(y.n))
    else RErr(BadOp)
  }

  /**
   * `eval_op` as written: `x.num % y.num` is evaluated without a zero check,
   * so on a zero divisor there is no defined result (None). Elsewhere it
   * agrees with EvalOp.
   */
  function EvalOpAsWritten(x: RVal, op: string, y: RVal): (r: Option<RVal>)
    ensures r.None? <==> x.RNum? && y.RNum? && op == "%" && y.n == 0
    ensures r.Some? ==> r.value == EvalOp(x, op, y)
  {
    if x.RNum? && y.RNum? && op == "%" && y.n == 0 then None
    else Some(EvalOp(x, op, y))
  }

  /** `eval_op` truncates toward zero: `-7 / 2` is -3 and `-7 % 2` is -1. */
  lemma TruncatedOperators()
    ensures EvalOp(RNum(-7), "/", RNum(2)) == RNum(-3)
    ensures EvalOp(RNum(-7), "%", RNum(2)) == RNum(-1)
  {
  }

  /** `1 % 0` has no value as written; the corrected operator reports a division by zero. */
  lemma ModByZeroFinding()
    ensures EvalOpAsWritten(RNum(1), "%", RNum(0)).None?
    ensures EvalOp(RNum(1), "%", RNum(0)) == RErr(DivZero)
  {
  }

  /**
   * On numbers, both generations of the interpreter compute the same
   * arithmetic: `eval_op` under a builtin's name is one step of `builtin_op`.
   */
  lemma EvalOpAgreesWithBuiltin(op: Values.ArithOp, x: int, y: int)
    ensures EvalOp(RNum(x), Environment.BuiltinName(Values.Arith(op)), RNum(y)) ==
      match Builtins.ArithStep(op, x, y)
      case None => RErr(DivZero)
      case Some(v) => RNum(v)
  {
  }

  /** A number leaf: `strtol` with the ERANGE check. */
  function ReadLong(text: string): (r: RVal)
    ensures r.RNum? ==> LongMin <= r.n <= LongMax
    ensures r.RErr? ==> r.code == BadNum
  {
    match Strtol(text)
    case InRange(n) => RNum(n)
    case OutOfRange => RErr(BadNum)
  }

  /**
   * The trees `eval` can walk: a number leaf, a lone number in child 1, or an
   * operator in child 1 followed by operand expressions from child 2 up to a
   * child whose tag does not mention "expr" (the closing bracket or the end
   * anchor). Anything else indexes past the children.
   */
  predicate Tree(t: Node)
    decreases t, |t.children|
  {
    || Contains(t.tag, "number")
    || (|t.children| >= 2 && Contains(t.children[1].tag, "number"))
    || (|t.children| >= 3 && Tree(t.children[2]) && OperandsOk(t, 3))
  }

  predicate OperandsOk(t: Node, i: nat)
    requires i <= |t.children|
    decreases t, |t.children| - i
  {
    i < |t.children| &&
    (!Contains(t.children[i].tag, "expr") || (Tree(t.children[i]) && OperandsOk(t, i + 1)))
  }

  /** `eval`. */
  function ReplEval(t: Node): (r: RVal)
    requires Tree(t)
    ensures Contains(t.tag, "number") ==> r == ReadLong(t.contents)
    ensures !Contains(t.tag, "number") && Contains(t.children[1].tag, "number") ==>
      r == ReadLong(t.children[1].contents)
    decreases t, |t.children|
  {
    if Contains(t.tag, "number") then ReadLong(t.contents)
    else if Contains(t.children[1].tag, "number") then ReadLong(t.children[1].contents)
    else
      var op := t.children[1].contents;
      var (x, i) := FoldOperands(t, op, ReplEval(t.children[2]), 3);
      // negation when the loop was not entered: exactly one operand
      if op == "-" && i == 3 then Negate(x) else x
  }

  /** The `while (strstr(t->children[i]->tag, "expr"))` loop of `eval`, with the final i. */
  function FoldOperands(t: Node, op: string, x: RVal, i: nat): (r: (RVal, nat))
    requires i <= |t.children| && OperandsOk(t, i)
    ensures i <= r.1 < |t.children|
    ensures !Contains(t.children[r.1].tag, "expr")
    ensures x.RErr? ==> r.0 == x
    decreases t, |t.children| - i
  {
    if !Contains(t.children[i].tag, "expr") then (x, i)
    else FoldOperands(t, op, EvalOp(x, op, ReplEval(t.children[i])), i + 1)
  }

  /** Unary minus, keeping an error operand an error. */
  function Negate(x: RVal): (r: RVal)
    ensures x.RNum? ==> r == RNum(-x.n)
    ensures x.RErr? ==> r == x
  {
    if x.RNum? then RNum(-x.n) else x
  }

  /**
   * `lval_num(-x.num)` as written: an error operand has no number set, so
   * the result is a number made from whatever the field holds (`unset`).
   */
  function NegateAsWritten(x: RVal, unset: int): (r: RVal)
    ensures r.RNum?
    ensures x.RNum? ==> r == RNum(-x.n)
  {
    RNum(-(if x.RNum? then x.n else unset))
  }

  // ----- the fold against a reference definition -------------------------------

  /** The values of the operand children from i on. */
  function OperandValues(t: Node, i: nat): (r: seq<RVal>)
    requires i <= |t.children| && OperandsOk(t, i)
    ensures i + |r| < |t.children|
    decreases t, |t.children| - i
  {
    if !Contains(t.children[i].tag, "expr") then []
    else [ReplEval(t.children[i])] + OperandValues(t, i + 1)
  }

  /**
   * A child whose tag has no "x", such as the closing bracket ("char") or
   * the end anchor ("regex"), ends the operand loop at once.
   */
  lemma NonExprStops(t: Node, op: string, x: RVal, i: nat)
    requires i < |t.children| && 'x' !in t.children[i].tag
    ensures OperandsOk(t, i)
    ensures FoldOperands(t, op, x, i) == (x, i)
    ensures OperandValues(t, i) == []
  {
    MissingCharNotContains(t.children[i].tag, "expr", 'x');
  }

  /** One value per operand child: entry k - i is what child k evaluates to. */
  lemma {:induction false} OperandValuesPointwise(t: Node, i: nat, k: nat)
    requires i <= |t.children| && OperandsOk(t, i)
    requires i <= k < i + |OperandValues(t, i)|
    ensures k < |t.children| && Contains(t.children[k].tag, "expr") && Tree(t.children[k])
    ensures OperandValues(t, i)[k - i] == ReplEval(t.children[k])
    decreases k - i
  {
    if k > i {
      OperandValuesPointwise(t, i + 1, k);
      assert OperandValues(t, i)[k - i] == OperandValues(t, i + 1)[k - (i + 1)];
    }
  }

  /** Left fold of `eval_op` over a list of values. */
  function FoldList(op: string, x: RVal, vs: seq<RVal>): RVal
    decreases |vs|
  {
    if |vs| == 0 then x else FoldList(op, EvalOp(x, op, vs[0]), vs[1..])
  }

  lemma {:induction false} FoldOperandsList(t: Node, op: string, x: RVal, i: nat)
    requires i <= |t.children| && OperandsOk(t, i)
    ensures FoldOperands(t, op, x, i) == (FoldList(op, x, OperandValues(t, i)), i + |OperandValues(t, i)|)
    decreases t, |t.children| - i
  {
    if !Contains(t.children[i].tag, "expr") {
      assert OperandValues(t, i) == [];
    } else {
      var y := OperandStep(t, op, x, i);
      var x' := EvalOp(x, op, y);
      var rest := OperandValues(t, i + 1);
      FoldOperandsList(t, op, x', i + 1);
      FoldListCons(op, x, y, rest);
      assert |OperandValues(t, i)| == 1 + |rest|;
    }
  }

  /** One turn of the operand loop, on an operand child whose value is y. */
  lemma OperandStep(t: Node, op: string, x: RVal, i: nat) returns (y: RVal)
    requires i <= |t.children| && OperandsOk(t, i) && Contains(t.children[i].tag, "expr")
    ensures Tree(t.children[i]) && OperandsOk(t, i + 1) && y == ReplEval(t.children[i])
    ensures FoldOperands(t, op, x, i) == FoldOperands(t, op, EvalOp(x, op, y), i + 1)
    ensures OperandValues(t, i) == [y] + OperandValues(t, i + 1)
  {
    y := ReplEval(t.children[i]);
  }

  lemma FoldListCons(op: string, x: RVal, y: RVal, vs: seq<RVal>)
    ensures FoldList(op, x, [y] + vs) == FoldList(op, EvalOp(x, op, y), vs)
  {
    assert ([y] + vs)[1..] == vs;
  }

  /**
   * An operator node evaluates to the left fold of its operand values through
   * `eval_op`, starting from the first operand; a lone operand of `-` is
   * negated.
   */
  lemma ReplEvalOperation(t: Node)
    requires Tree(t) && !Contains(t.tag, "number") && !Contains(t.children[1].tag, "number")
    ensures var op := t.children[1].contents;
      var vs := [ReplEval(t.children[2])] + OperandValues(t, 3);
      ReplEval(t) == if op == "-" && |vs| == 1 then Negate(vs[0]) else FoldList(op, vs[0], vs[1..])
  {
    var op := t.children[1].contents;
    FoldOperandsList(t, op, ReplEval(t.children[2]), 3);
    var vs := [ReplEval(t.children[2])] + OperandValues(t, 3);
    assert vs[1..] == OperandValues(t, 3);
  }

  /** The first error among the values, if any. */
  function FirstErr(vs: seq<RVal>): (r: Option<nat>)
    ensures r.None? <==> forall i :: 0 <= i < |vs| ==> vs[i].RNum?
    ensures r.Some? ==> r.value < |vs| && vs[r.value].RErr? && forall j :: 0 <= j < r.value ==> vs[j].RNum?
  {
    if |vs| == 0 then None
    else if vs[0].RErr? then Some(0)
    else match FirstErr(vs[1..])
      case Some(i) => Some(i + 1)
      case None => None
  }

  /** An error among the start value and the operands makes the whole fold an error. */
  lemma {:induction false} FoldListError(op: string, x: RVal, vs: seq<RVal>)
    requires FirstErr([x] + vs).Some?
    ensures FoldList(op, x, vs).RErr?
    decreases |vs|
  {
    if x.RErr? {
      FoldListKeepsError(op, x, vs);
    } else {
      var k := FirstErr([x] + vs).value;
      assert k >= 1;
      var z := EvalOp(x, op, vs[0]);
      if z.RErr? {
        FoldListKeepsError(op, z, vs[1..]);
      } else {
        assert vs[0].RNum?;
        var rest := [z] + vs[1..];
        assert rest[k - 1] == vs[k - 1];
        assert FirstErr(rest).Some?;
        FoldListError(op, z, vs[1..]);
      }
    }
  }

  /** The operators for which `eval_op` on two numbers always gives a number. */
  predicate Total(op: string)
  {
    op == "+" || op == "-" || op == "*" || op == "min" || op == "max"
  }

  /**
   * Under an operator that cannot fail on numbers, the fold's result is the
   * first error among the start value and the operands.
   */
  lemma {:induction false} FoldListFirstError(op: string, x: RVal, vs: seq<RVal>)
    requires Total(op) && FirstErr([x] + vs).Some?
    ensures FoldList(op, x, vs) == ([x] + vs)[FirstErr([x] + vs).value]
    decreases |vs|
  {
    var all := [x] + vs;
    if x.RErr? {
      assert FirstErr(all) == Some(0);
      FoldListKeepsError(op, x, vs);
    } else {
      var k := FirstErr(all).value;
      var z := EvalOp(x, op, vs[0]);
      if vs[0].RErr? {
        assert FirstErr(all) == Some(1) by { FirstErrAt(all, 1); }
        FoldListKeepsError(op, z, vs[1..]);
      } else {
        var rest := [z] + vs[1..];
        assert forall j :: 1 <= j < |rest| ==> rest[j] == all[j + 1];
        FirstErrAt(rest, k - 1);
        FoldListFirstError(op, z, vs[1..]);
      }
    }
  }

  lemma FirstErrAt(vs: seq<RVal>, k: nat)
    requires k < |vs| && vs[k].RErr? && forall j :: 0 <= j < k ==> vs[j].RNum?
    ensures FirstErr(vs) == Some(k)
  {
  }

  function SumR(vs: seq<RVal>): int
    requires forall i :: 0 <= i < |vs| ==> vs[i].RNum?
  {
    if |vs| == 0 then 0 else vs[0].n + SumR(vs[1..])
  }

  /** Over numbers, folding `+` adds them all to the start value. */
  lemma {:induction false} FoldListSum(x: int, vs: seq<RVal>)
    requires forall i :: 0 <= i < |vs| ==> vs[i].RNum?
    ensures FoldList("+", RNum(x), vs) == RNum(x + SumR(vs))
    decreases |vs|
  {
    if |vs| > 0 {
      FoldListSum(x + vs[0].n, vs[1..]);
    }
  }

  /** Once the accumulated value is an error, the fold keeps it. */
  lemma {:induction false} FoldListKeepsError(op: string, x: RVal, vs: seq<RVal>)
    requires x.RErr?
    ensures FoldList(op, x, vs) == x
    decreases |vs|
  {
    if |vs| > 0 {
      FoldListKeepsError(op, x, vs[1..]);
    }
  }

  /**
   * A `-` node with a single operand that evaluates to an error, such as
   * `- (/ 1 0)`: the corrected negation keeps the error, while the negation
   * as written makes a number of it whatever the unset field holds.
   */
  lemma NegationFinding(t: Node)
    requires Tree(t) && !Contains(t.tag, "number") && !Contains(t.children[1].tag, "number")
    requires t.children[1].contents == "-" && OperandValues(t, 3) == []
    requires ReplEval(t.children[2]).RErr?
    ensures ReplEval(t) == ReplEval(t.children[2])
    ensures forall unset :: NegateAsWritten(ReplEval(t.children[2]), unset).RNum?
  {
    ReplEvalOperation(t);
  }

  /** A number leaf holding printed text reads back as that number when it fits a long. */
  lemma ReadPrintedNumber(n: int)
    ensures ReadLong(ShowInt(n)) == if LongMin <= n <= LongMax then RNum(n) else RErr(BadNum)
  {
    StrtolShowInt(n);
  }

  /** Over numbers, folding `-` subtracts them all from the start value. */
  lemma {:induction false} FoldListDifference(x: int, vs: seq<RVal>)
    requires forall i :: 0 <= i < |vs| ==> vs[i].RNum?
    ensures FoldList("-", RNum(x), vs) == RNum(x - SumR(vs))
    decreases |vs|
  {
    if |vs| > 0 {
      FoldListDifference(x - vs[0].n, vs[1..]);
    }
  }

  /** `-` over numbers: a lone operand is negated, more are subtracted from the first. */
  lemma ReplSubtraction(t: Node)
    requires Tree(t) && !Contains(t.tag, "number") && !Contains(t.children[1].tag, "number")
    requires t.children[1].contents == "-" && ReplEval(t.children[2]).RNum?
    requires forall i :: 0 <= i < |OperandValues(t, 3)| ==> OperandValues(t, 3)[i].RNum?
    ensures var x := ReplEval(t.children[2]).n;
      ReplEval(t) == if OperandValues(t, 3) == [] then RNum(-x) else RNum(x - SumR(OperandValues(t, 3)))
  {
    ReplEvalOperation(t);
    FoldListDifference(ReplEval(t.children[2]).n, OperandValues(t, 3));
  }

  /** `+` over numbers adds every operand. */
  lemma ReplAddition(t: Node)
    requires Tree(t) && !Contains(t.tag, "number") && !Contains(t.children[1].tag, "number")
    requires t.children[1].contents == "+" && ReplEval(t.children[2]).RNum?
    requires forall i :: 0 <= i < |OperandValues(t, 3)| ==> OperandValues(t, 3)[i].RNum?
    ensures ReplEval(t) == RNum(ReplEval(t.children[2]).n + SumR(OperandValues(t, 3)))
  {
    ReplEvalOperation(t);
    FoldListSum(ReplEval(t.children[2]).n, OperandValues(t, 3));
  }

  /** An error anywhere among an operator's operands makes the node an error. */
  lemma ReplErrorOperand(t: Node)
    requires Tree(t) && !Contains(t.tag, "number") && !Contains(t.children[1].tag, "number")
    requires FirstErr([ReplEval(t.children[2])] + OperandValues(t, 3)).Some?
    ensures ReplEval(t).RErr?
  {
    ReplEvalOperation(t);
    var vs := [ReplEval(t.children[2])] + OperandValues(t, 3);
    if !(t.children[1].contents == "-" && |vs| == 1) {
      assert vs == [vs[0]] + vs[1..];
      FoldListError(t.children[1].contents, vs[0], vs[1..]);
    }
  }

  /** Under `+ - * min max`, a node with an erroneous operand is the first such error. */
  lemma ReplFirstError(t: Node)
    requires Tree(t) && !Contains(t.tag, "number") && !Contains(t.children[1].tag, "number")
    requires Total(t.children[1].contents)
    requires FirstErr([ReplEval(t.children[2])] + OperandValues(t, 3)).Some?
    ensures var vs := [ReplEval(t.children[2])] + OperandValues(t, 3);
      ReplEval(t) == vs[FirstErr(vs).value]
  {
    ReplEvalOperation(t);
    var vs := [ReplEval(t.children[2])] + OperandValues(t, 3);
    if t.children[1].contents == "-" && |vs| == 1 {
      assert FirstErr(vs) == Some(0);
    } else {
      assert vs == [vs[0]] + vs[1..];
      FoldListFirstError(t.children[1].contents, vs[0], vs[1..]);
    }
  }
}
