# mylisp, modelled in Dafny

mylisp is a small Lisp interpreter, written as a tutorial in two generations.

The later interpreter (`deprecated/mylisp_dep.c`, with the layout declared in `mylisp.h`) has these parts:

- **Reader.** It turns an mpc parse tree into values.
- **Values.** A value is a number, an error, a symbol, a builtin function, an S-expression or a Q-expression.
- **Environment.** A flat symbol table.
- **Evaluator.** It resolves symbols, evaluates the cells of an S-expression and applies the function in front.
- **Builtins.** Arithmetic plus `list`, `head`, `tail`, `init`, `len`, `join` and `eval`.

The earlier interpreter (`repl.c`) evaluates arithmetic directly over the parse tree. Its value is a number or one of three error codes.

The model is pure functions over immutable datatypes:

| file | models |
|---|---|
| `values.dfy` | the value union, the error texts, a size measure |
| `environment.dfy` | the symbol table, the 15 registrations |
| `cells.dfy` | `lval_add`, `lval_pop`, `lval_take`, `lval_join` |
| `c_arith.dfy` | C truncating `/` and `%`, `(long) pow`, long-to-int |
| `decimal.dfy` | `strtol` in base 10, `printf("%li")` |
| `ast.dfy` | the mpc node, `strstr` |
| `reader.dfy` | `lval_read` |
| `builtins.dfy` | `builtin_op`, the list builtins |
| `evaluator.dfy` | `lval_eval`, `lval_eval_sexpr`, the `eval` builtin |
| `literal_evaluator.dfy` | the operator check as written |
| `repl.dfy` | `eval_op` and `eval` of `repl.c` |
| `sessions.dfy` | whole expressions in an environment that binds the builtins |

Design choices:

- **Functions.** A function value is one of a closed enum of the 15 registered builtins, not a C function pointer.
- **Copying.** `lval_copy` is the identity, because values are immutable.
- **Termination.** `eval` re-enters the evaluator. The corrected evaluator terminates by a size measure: every result is no larger than its input. That needs an environment that holds only functions, which the builtin registration establishes (`Environment.InitialEnvContents`).
- **Failure points.** Where the C code fails (a null list, an unset field, undefined behaviour), the model either excludes the case by a precondition that states what the code relies on, or models the failure under "## Findings".

Two details follow the source literally:

- The reader's number error is spelled "Error: Invalied Number" (deprecated/mylisp_dep.c:186).
- `lenv_add_builtins` (deprecated/mylisp_dep.c:444-461) registers no `def`, so the model has none.

## Model

| member | source | states |
|---|---|---|
| Environment.IndexOf | deprecated/mylisp_dep.c:51-55 | the lookup loop stops at the first slot holding the name, and at no slot iff the name is unbound |
| Environment.Get | deprecated/mylisp_dep.c:50-57 | an unbound name gives "Error: Unbound symbol"; a bound name gives the value of a slot with that name, the only one when names are unique |
| Environment.Put | deprecated/mylisp_dep.c:58-73 | an existing name is overwritten in its slot with the count unchanged; a new name is appended, count + 1, earlier slots kept |
| Environment.PutGet | deprecated/mylisp_dep.c:50-73 | after putting v under k, getting k gives v |
| Environment.PutOther | deprecated/mylisp_dep.c:50-73 | putting under k leaves the lookup of every other name unchanged |
| Environment.PutUnique | deprecated/mylisp_dep.c:58-73 | put keeps names unique |
| Environment.PutBound | deprecated/mylisp_dep.c:58-73 | after a put, exactly the old names plus k are bound |
| Environment.BuiltinNameInjective | deprecated/mylisp_dep.c:444-461 | no two builtins are registered under the same name |
| Environment.RegistrationsComplete | deprecated/mylisp_dep.c:444-461 | every builtin is among the 15 registrations |
| Environment.PutAll | deprecated/mylisp_dep.c:437-443 | registering builtins into a table of functions keeps it a table of functions |
| Environment.PutAllBound | deprecated/mylisp_dep.c:437-461 | after registration, a name is bound iff it was bound before or is a registered name |
| Environment.PutAllGet | deprecated/mylisp_dep.c:437-461 | each registered name looks up its own builtin |
| Environment.PutAllKeeps | deprecated/mylisp_dep.c:437-461 | registration leaves other names' lookups unchanged |
| Environment.AddBuiltinsGet | deprecated/mylisp_dep.c:444-461 | after `lenv_add_builtins`, each builtin's name looks up that builtin's function |
| Environment.AddBuiltins | deprecated/mylisp_dep.c:444-461 | afterwards every builtin's name looks up that builtin, and a table of functions stays one |
| Environment.InitialEnv | deprecated/mylisp_dep.c:444-461 | the table registration builds from empty holds only functions |
| Environment.InitialEnvContents | deprecated/mylisp_dep.c:444-461 | the initial table binds exactly the 15 names, each to a function, so every lookup is a function or the unbound error |
| Environment.FunctionsOnlyGet | deprecated/mylisp_dep.c:50-57 | in a table of functions, a lookup is a function or the unbound error |
| Cells.Add | deprecated/mylisp_dep.c:188-193 | the cell is appended at the end, the others kept in place |
| Cells.Pop | deprecated/mylisp_dep.c:242-248 | cell i is returned; the others keep their order, count - 1 |
| Cells.Take | deprecated/mylisp_dep.c:249-253 | the result is cell i |
| Cells.Join | deprecated/mylisp_dep.c:254-260 | k's cells are appended after v's, in order |
| Cells.PopFirst | deprecated/mylisp_dep.c:242-248 | popping cell 0 leaves the tail |
| Cells.PopLast | deprecated/mylisp_dep.c:242-248 | popping the last cell leaves the prefix |
| Cells.PopRestore | deprecated/mylisp_dep.c:242-248 | putting the popped cell back at i restores the list |
| Cells.PopAdd | deprecated/mylisp_dep.c:242-248 | popping the cell just added undoes the add |
| Cells.PopMultiset | deprecated/mylisp_dep.c:242-248 | pop loses no cell and invents none |
| CArith.TDiv | deprecated/mylisp_dep.c:284 | C division: the quotient truncated toward zero, with the sign of the exact quotient |
| CArith.TMod | deprecated/mylisp_dep.c:287 | C remainder: dividend minus truncated quotient times divisor, smaller than the divisor, with the dividend's sign |
| CArith.Power | deprecated/mylisp_dep.c:288 | `(long) pow(x, y)`: the exact power for y >= 0, and for y < 0 the real 1/x^\|y\| truncated toward zero |
| CArith.NegativePower | deprecated/mylisp_dep.c:288 | 1/x^k truncates to 1 for x = 1, to ±1 by parity for x = -1, and to 0 otherwise |
| CArith.WrapInt | deprecated/mylisp_dep.c:184 | assigning a long to an int gives the 32-bit value congruent to it mod 2^32, unchanged when it fits |
| Decimal.SkipSpace | deprecated/mylisp_dep.c:184 | what `strtol` reads from is no longer than the text and does not start with C white space |
| Decimal.SkipSpaceSuffix | deprecated/mylisp_dep.c:184 | the skipped part is a prefix of white space only, and the rest is the text's suffix |
| Decimal.DigitPrefix | deprecated/mylisp_dep.c:184 | the longest prefix of decimal digits |
| Decimal.Strtol | deprecated/mylisp_dep.c:183-186 | ERANGE exactly when the number read (white space skipped, an optional sign, the digit prefix) lies outside the 64-bit long range; otherwise that number |
| Decimal.StrtolSkipsSpace | deprecated/mylisp_dep.c:184 | a leading white-space character does not change the conversion |
| Decimal.StrtolSign | deprecated/mylisp_dep.c:184 | a `+` before the digits leaves the number read unchanged and a `-` negates it |
| Decimal.StrtolLeadingZero | deprecated/mylisp_dep.c:184 | a `0` in front of unsigned text does not change the conversion: "007" reads as 7 |
| Decimal.StrtolStopsAtNonDigit | deprecated/mylisp_dep.c:184 | the conversion stops at the first non-digit after the digits, with or without a minus sign: "12ab" reads as 12 |
| Decimal.StrtolNoDigits | deprecated/mylisp_dep.c:184 | text with no digit in it reads as 0, without ERANGE |
| Decimal.ShowNat | deprecated/mylisp_dep.c:228 | `%li` of a natural number is a non-empty string of decimal digits |
| Decimal.ShowInt | deprecated/mylisp_dep.c:228 | `%li` of an integer starts with a minus sign or a digit |
| Decimal.ShowNatValue | deprecated/mylisp_dep.c:228 | the printed digits denote the number |
| Decimal.AllDigitsPrefix | deprecated/mylisp_dep.c:184 | `strtol` consumes the whole of an all-digit text |
| Decimal.StrtolShowInt | repl.c:101-103 | reading back a printed integer gives the integer when it fits a long, and ERANGE when it does not |
| Ast.Contains | deprecated/mylisp_dep.c:195-201 | `strstr(s, sub) != NULL`, the test behind every tag dispatch: the empty sub matches every s, and a sub longer than s never matches |
| Ast.ContainsOccurrence | repl.c:99-121 | the tag test holds exactly when sub occurs at some position of s |
| Environment.BuiltinName | deprecated/mylisp_dep.c:444-461 | each registered name can be typed at the prompt: it is made of characters the `symbol` rule (deprecated/mylisp_dep.c:478) accepts, and it cannot lex as a number |
| Ast.MissingCharNotContains | repl.c:121 | a text lacking one of sub's characters does not contain sub, so `strstr` finds nothing |
| Reader.ReadNumber | deprecated/mylisp_dep.c:182-187 | a number node reads as a number within the long range, or as "Error: Invalied Number" on ERANGE |
| Reader.Read | deprecated/mylisp_dep.c:194-213 | a number tag reads a number, else a symbol tag a symbol, else a list of the read children, a Q-expression when the tag mentions "qexpr" |
| Reader.ReadChildren | deprecated/mylisp_dep.c:203-210 | the loop adds at most one cell per child |
| Reader.ReadChildrenCons | deprecated/mylisp_dep.c:203-210 | the first child contributes its reading, or nothing when it is a bracket or the regex anchor, ahead of the rest |
| Reader.Kept | deprecated/mylisp_dep.c:203-208 | the children the loop reads: none of `(` `)` `{` `}` or "regex" |
| Reader.MapRead | deprecated/mylisp_dep.c:209 | each node read in turn, position by position |
| Reader.ReadChildrenKept | deprecated/mylisp_dep.c:203-210 | the list cells are the reads of the kept children, in the original order |
| Reader.ReadChildrenAppend | deprecated/mylisp_dep.c:203-210 | reading a concatenation of children concatenates the reads |
| Reader.ReadNoFunctions | deprecated/mylisp_dep.c:194-213 | the reader never builds a function value |
| Reader.ReadNumberAsWritten | deprecated/mylisp_dep.c:182-187 | as written, a number read lies in the int range, is the long read wrapped to 32 bits, and fails exactly when the long read fails |
| Reader.IntTruncationFinding | deprecated/mylisp_dep.c:184 | a printed number above the int range but within long reads as a different number as written and as itself through a long |
| Reader.ReadShownNumber | deprecated/mylisp_dep.c:182-187 | a printed integer reads back as itself when it fits a long, and as the invalid-number error when it does not |
| Builtins.ArithStep | deprecated/mylisp_dep.c:274-290 | one fold step fails exactly on a zero divisor of `/` or `%`, or zero to a negative power; otherwise `/` and `%` give C's truncated quotient and remainder, and min and max pick the smaller and the larger operand |
| Builtins.ArithFold | deprecated/mylisp_dep.c:272-293 | the fold ends in a number or in "Error: Division by zero" |
| Builtins.BuiltinOp | deprecated/mylisp_dep.c:263-296 | "Error: Invalid Number" iff some argument is not a number |
| Builtins.FoldAdd | deprecated/mylisp_dep.c:274 | folding `+` adds the sum of the operands |
| Builtins.FoldSub | deprecated/mylisp_dep.c:275 | folding `-` subtracts the sum of the operands |
| Builtins.FoldMul | deprecated/mylisp_dep.c:276 | folding `*` multiplies by the product of the operands |
| Builtins.FoldMin | deprecated/mylisp_dep.c:289 | folding min gives the least of the start value and the operands |
| Builtins.FoldMax | deprecated/mylisp_dep.c:290 | folding max gives the greatest of the start value and the operands |
| Builtins.Quotients | deprecated/mylisp_dep.c:277-286 | dividing in turn by nonzero divisors, each quotient truncated, never grows the magnitude |
| Builtins.Remainders | deprecated/mylisp_dep.c:287 | taking C remainders in turn by nonzero divisors never grows the magnitude, keeps the dividend's sign or gives 0, and ends below every divisor in magnitude |
| Builtins.FoldDivide | deprecated/mylisp_dep.c:272-293 | with no zero divisor the `/` loop ends in the chain of truncated quotients |
| Builtins.FoldRemainder | deprecated/mylisp_dep.c:272-293 | with no zero divisor the `%` loop ends in the chain of C remainders |
| Builtins.TruncatedDivision | deprecated/mylisp_dep.c:284-287 | C truncates toward zero: -7 / 2 is -3, -7 % 2 is -1, 7 / -2 is -3 and 7 % -2 is 1, where Euclidean division gives other values |
| Builtins.FoldDivideByZero | deprecated/mylisp_dep.c:277-287 | folding `/` or `%` gives the division-by-zero error iff some operand is 0 |
| Builtins.BuiltinOpNumbers | deprecated/mylisp_dep.c:263-296 | on numbers: sum, difference from the first, lone `-` negates, product, least, greatest, and `/`, `%` fail iff a later operand is 0 and are otherwise the chain of truncated quotients or C remainders |
| Builtins.ModAsWritten | deprecated/mylisp_dep.c:287 | `%` as written has no value for a zero divisor and is C's remainder otherwise |
| Builtins.ModByZero | deprecated/mylisp_dep.c:287 | `7 % 0` has no value as written, while the corrected `(% 7 0)` is the division-by-zero error |
| Builtins.BuiltinOpPower | deprecated/mylisp_dep.c:288 | `(^ x y)` is x^y for y >= 0, and zero to a negative power is an error |
| Builtins.ArgGuard | deprecated/mylisp_dep.c:373-376 | passes iff there is exactly one argument and it is a Q-expression, else the count or the type error, in that order |
| Builtins.ListGuard | deprecated/mylisp_dep.c:322-327 | as ArgGuard, then an empty list is "Error: Invalid syntax" |
| Builtins.KeepFirst | deprecated/mylisp_dep.c:341 | popping cell 1 until one is left keeps just the first cell |
| Builtins.BuiltinList | deprecated/mylisp_dep.c:368-371 | `list` retags its arguments as a Q-expression: the same cells, in order |
| Builtins.BuiltinHead | deprecated/mylisp_dep.c:332-343 | a guard failure is its error; otherwise a Q-expression of the first cell only |
| Builtins.BuiltinTail | deprecated/mylisp_dep.c:356-367 | a guard failure is its error; otherwise the list without its first cell |
| Builtins.BuiltinInit | deprecated/mylisp_dep.c:344-355 | a guard failure is its error; otherwise the list without its last cell |
| Builtins.BuiltinLen | deprecated/mylisp_dep.c:321-331 | a guard failure is its error; otherwise the number of cells |
| Builtins.JoinRest | deprecated/mylisp_dep.c:388 | the loop appends the remaining lists' cells in argument order |
| Builtins.BuiltinJoin | deprecated/mylisp_dep.c:382-391 | "invalid type" iff some argument is not a Q-expression, else the concatenation in argument order |
| Builtins.HeadTail | deprecated/mylisp_dep.c:332-367 | head and tail together rebuild the list |
| Builtins.InitLast | deprecated/mylisp_dep.c:344-355 | init followed by the last cell rebuilds the list |
| Builtins.LenTailInit | deprecated/mylisp_dep.c:321-367 | tail and init are one shorter than the list |
| Builtins.ListHeadLen | deprecated/mylisp_dep.c:368-371 | `list` keeps its arguments: its head is the first argument and its length their count |
| Builtins.ConcatAppend | deprecated/mylisp_dep.c:382-391 | joining argument lists distributes over their concatenation |
| Builtins.JoinAssociative | deprecated/mylisp_dep.c:382-391 | join is associative |
| Evaluator.FirstError | deprecated/mylisp_dep.c:412-414 | the first error among the cells at its own index, none iff no cell is an error |
| Evaluator.ErrorScanAsWritten | deprecated/mylisp_dep.c:412-414 | the scan as written: no error iff none is found; on an error it returns cell 1, or reads out of bounds when there is only one cell |
| Evaluator.ErrorScanFinding | deprecated/mylisp_dep.c:413 | for `(foo 5)` with `foo` unbound the scan returns 5 and for `(foo)` it reads out of bounds, while the first error is cell 0 in both |
| Evaluator.EvalValue | deprecated/mylisp_dep.c:427-435 | a symbol evaluates to its lookup, and a number, error, function or Q-expression to itself; evaluation never grows a value and ends in a normal form: a number, error, function, Q-expression or `()` |
| Evaluator.EvalSExpr | deprecated/mylisp_dep.c:408-426 | an S-expression's value is no larger than it and in normal form |
| Evaluator.EvalCells | deprecated/mylisp_dep.c:409-411 | every cell evaluated in place: same count, each in normal form |
| Evaluator.Apply | deprecated/mylisp_dep.c:423 | applying a builtin keeps results no larger than its arguments |
| Evaluator.EvalBuiltin | deprecated/mylisp_dep.c:372-381 | `eval` keeps results no larger than its argument |
| Evaluator.EvalCellsPointwise | deprecated/mylisp_dep.c:409-411 | cell i of the evaluated list is the value of cell i |
| Evaluator.EvalIdempotent | deprecated/mylisp_dep.c:427-435 | evaluating a value twice is evaluating it once |
| Evaluator.EvalSymbol | deprecated/mylisp_dep.c:428-432 | a symbol evaluates to a function iff bound, namely the value in the first slot holding the name, and else to the unbound error |
| Evaluator.EvalInert | deprecated/mylisp_dep.c:434 | numbers, errors, functions and Q-expressions evaluate to themselves |
| Evaluator.ErrorPropagates | deprecated/mylisp_dep.c:408-414 | an S-expression whose first erroneous cell is i evaluates to that cell's error |
| Evaluator.EmptyAndSingle | deprecated/mylisp_dep.c:415-416 | `()` is itself, and a one-cell S-expression is that cell's value |
| Evaluator.Application | deprecated/mylisp_dep.c:417-425 | with two or more error-free cells, a function in front is applied to the values of the rest; anything else is "Error: Invalid Symbol" |
| Evaluator.EvalOfQuote | deprecated/mylisp_dep.c:372-381 | `eval` of a Q-expression is the value of the same cells as an S-expression |
| Evaluator.EvalBuiltinGuards | deprecated/mylisp_dep.c:373-376 | `eval` needs exactly one argument, a Q-expression |
| Evaluator.EvalOfList | deprecated/mylisp_dep.c:368-381 | quoting with `list` then running with `eval` is evaluation |
| LiteralEvaluator.LiteralEval | deprecated/mylisp_dep.c:408-435 | the evaluator with the operator check as written (and the corrected first-error scan) never yields a symbol |
| LiteralEvaluator.LiteralCombine | deprecated/mylisp_dep.c:412-425 | after the corrected first-error scan, the operator check as written makes two or more cells always an error |
| LiteralEvaluator.LiteralNeverApplies | deprecated/mylisp_dep.c:417-423 | combining the corrected first-error scan with the operator check as written, an S-expression of two or more cells never reaches a builtin: it is an error, and "Error: Invalid Symbol" when no cell is an error |
| Sessions.OperatorCheckFinding | deprecated/mylisp_dep.c:417-423 | `(+ 1 2)` is "Error: Invalid Symbol" as written and 3 with the corrected check |
| Sessions.CallBuiltin | deprecated/mylisp_dep.c:408-433 | a bound builtin called on self-evaluating arguments is applied to them unchanged |
| Sessions.InitialBinds | deprecated/mylisp_dep.c:444-461 | the initial environment binds every builtin under its name |
| Sessions.SumSession | deprecated/mylisp_dep.c:274 | `(+ 1 2 3)` is 6 |
| Sessions.NegateSession | deprecated/mylisp_dep.c:269-271 | `(- 5)` is -5 |
| Sessions.DivideByZeroSession | deprecated/mylisp_dep.c:277-282 | `(/ 10 0)` is "Error: Division by zero" |
| Sessions.HeadSession | deprecated/mylisp_dep.c:332-343 | `(head {1 2 3})` is `{1}` |
| Sessions.TailSession | deprecated/mylisp_dep.c:356-367 | `(tail {1 2 3})` is `{2 3}` |
| Sessions.JoinSession | deprecated/mylisp_dep.c:382-391 | `(join {1} {2 3})` is `{1 2 3}` |
| Sessions.LenSession | deprecated/mylisp_dep.c:321-331 | `(len {1 2 3})` is 3 |
| Sessions.EvalSession | deprecated/mylisp_dep.c:372-381 | `(eval {+ 1 2})` is 3 |
| Sessions.AddSession | deprecated/mylisp_dep.c:274 | `(+ 1 2)` is 3 |
| Sessions.UnboundSession | deprecated/mylisp_dep.c:408-432 | an unbound name in front makes the expression the unbound-symbol error |
| Sessions.NotAFunctionSession | deprecated/mylisp_dep.c:418-422 | `(1 2)` is "Error: Invalid Symbol" |
| Repl.EvalOp | repl.c:78-95 | an error x is returned, else an error y; unknown operators give the bad-operator code; on numbers only a zero divisor of `/` or `%` or zero to a negative power fails, and `/`, `%` otherwise truncate toward zero as in C |
| Repl.EvalOpAgreesWithBuiltin | repl.c:84-91 | on numbers, `eval_op` under a builtin's name computes one step of `builtin_op` |
| Repl.EvalOpAsWritten | repl.c:78-95 | as written, `eval_op` has no value exactly for `%` on two numbers with a zero divisor; wherever it has a value, that value is EvalOp's |
| Repl.TruncatedOperators | repl.c:87-88 | `eval_op` truncates toward zero: -7 / 2 is -3 and -7 % 2 is -1 |
| Repl.ModByZeroFinding | repl.c:88 | `1 % 0` has no value as written and is the division-by-zero code when corrected |
| Repl.ReadLong | repl.c:101-103 | a number leaf is a number within the long range, or the bad-number code |
| Repl.ReadPrintedNumber | repl.c:99-111 | a printed number leaf reads as itself when it fits a long, else as the bad-number code |
| Repl.ReplEval | repl.c:99-111 | a number leaf is its `strtol` read with the ERANGE check; otherwise a node whose child 1 is a number is that child's read |
| Repl.FoldOperands | repl.c:120-124 | the loop ends within the children, at or after i, at a child whose tag does not mention "expr"; an error accumulator comes out unchanged |
| Repl.OperandValues | repl.c:121-122 | the operand children from i are followed by at least one more child, the one that stops the loop |
| Repl.OperandValuesPointwise | repl.c:121-122 | entry k - i of the operand values is the value of child k, whose tag mentions "expr" |
| Repl.NonExprStops | repl.c:121 | a child whose tag has no `x`, such as a bracket or the end anchor, ends the loop at once with no operands |
| Repl.FoldOperandsList | repl.c:117-124 | the loop is the left fold of `eval_op` over the operand values, and its final i counts them |
| Repl.ReplEvalOperation | repl.c:98-133 | an operator node is the left fold of `eval_op` from the first operand; a lone operand of `-` is negated |
| Repl.Negate | repl.c:128-130 | negation of a number, and an error operand stays that error |
| Repl.NegateAsWritten | repl.c:128-130 | as written the negation is always a number, the negated operand when that is a number |
| Repl.NegationFinding | repl.c:128-130 | `-` on a lone erroneous operand such as `(/ 1 0)` keeps the error when corrected, and is a number whatever the unset field holds as written |
| Repl.FirstErr | repl.c:80-81 | the first error among the values at its own index |
| Repl.FoldListKeepsError | repl.c:80 | once the accumulator is an error the fold keeps it |
| Repl.FoldListError | repl.c:78-124 | an error among the start value and the operands makes the fold an error |
| Repl.FoldListFirstError | repl.c:78-124 | under `+ - * min max` the fold is the first error among the start value and the operands |
| Repl.FoldListSum | repl.c:84 | folding `+` over numbers adds their sum |
| Repl.FoldListDifference | repl.c:85 | folding `-` over numbers subtracts their sum |
| Repl.ReplAddition | repl.c:84-124 | `+` over numbers adds every operand |
| Repl.ReplSubtraction | repl.c:85-130 | `-` over numbers negates a lone operand, else subtracts the rest from the first |
| Repl.ReplErrorOperand | repl.c:117-124 | an erroneous operand makes the node an error |
| Repl.ReplFirstError | repl.c:117-124 | under `+ - * min max`, a node with an erroneous operand is the first such error |

## Left out

- Console front ends: `readline`, `add_history`, `main` and the mpc grammar (deprecated/mylisp_dep.c:10-30, 465-514; repl.c:5-25, 135-177). The parser is an external producer of trees; `Ast.Node` stands in for its output.
- Memory management: `malloc`, `realloc`, `free`, `lval_del`, `lenv_del`, and the freeing half of `LASSERT`. Values are immutable, so ownership does not arise.
- `lval_copy` (deprecated/mylisp_dep.c:134-160): copying is the identity. Its symbol case copies from the error field. That is never reached, because the environment holds only functions and lookup is the only copy of a stored value.
- The string dispatcher `builtin` (deprecated/mylisp_dep.c:394-405): the evaluator never calls it and dispatches through the stored function instead.
- Printing: `lval_print`, `lval_expr_print` and repl.c's `lval_print` write to stdout. Only the number format `%li` is modelled (`Decimal.ShowInt`), for the read-back lemmas.
- Long overflow is undefined in C. The model computes on unbounded integers, so it gives a defined result in each of these cases:
  - `+`, `-`, `*` and `pow` whose result leaves the long range;
  - `LONG_MIN / -1` and `LONG_MIN % -1` (deprecated/mylisp_dep.c:284, 287; repl.c:87-88);
  - negating `LONG_MIN` (deprecated/mylisp_dep.c:270; repl.c:129).
  `strtol` can return `LONG_MIN`, so these inputs are reachable. Builtins.BuiltinOpNumbers and Repl.EvalOp promise a result there that C does not define.
- Builtins.ArithStep: C's `pow` goes through double precision, whose rounding is not modelled. The model computes the exact power, truncated toward zero for negative exponents.
- Builtins.ArithStep: zero to a negative power gives an infinity in C, and its conversion to long is undefined. The model reports it as the division-by-zero error.
- Repl.EvalOp: the same exact-power and zero-to-a-negative-power choices as Builtins.ArithStep apply to `^`.
- Evaluator.EvalValue: an environment binding a Q-expression could make evaluation loop. The model requires a table of functions, which is all the code ever stores.
- Reader.Read: a node with a tag the reader does not know makes the C code add cells to a null list. The model requires every reached node to be readable.
- Repl.ReplEval: the C code reads `children[1]`, then `children[2]`, then loops until a child's tag lacks "expr" (repl.c:107-121). With fewer than two children, with fewer than three when child 1 is not a number, or with no later child lacking "expr", it indexes past the children. The model requires the shape that avoids this (`Repl.Tree`), which the grammar produces.
- Builtins.BuiltinOp, Builtins.BuiltinJoin: with no arguments the C code pops from an empty list. The evaluator never applies a function to zero arguments, and both require at least one.

## Findings

| source | as written | input that shows it | evidently intended | confidence | as-written member | corrected member |
|---|---|---|---|---|---|---|
| deprecated/mylisp_dep.c:413 | on any error cell, `lval_take(v, 1)` returns cell 1 | `(foo 5)` with `foo` unbound gives 5; `(foo)` reads out of bounds | return the error found, cell i | not executed | Evaluator.ErrorScanFinding | Evaluator.ErrorPropagates |
| deprecated/mylisp_dep.c:418 | the head must be a symbol, but evaluation has already replaced every symbol by its function | `(+ 1 2)` gives "Error: Invalid Symbol" | the head must be a function | not executed | LiteralEvaluator.LiteralNeverApplies | Sessions.OperatorCheckFinding |
| deprecated/mylisp_dep.c:287 | `x->num %= y->num` with no zero check | `(% 7 0)` is undefined behaviour | "Error: Division by zero", like `/` | not executed | Builtins.ModByZero | Builtins.FoldDivideByZero |
| deprecated/mylisp_dep.c:184 | the `strtol` result is stored in an `int` | `2147483648` reads as -2147483648 | keep the long | not executed | Reader.IntTruncationFinding | Reader.ReadShownNumber |
| repl.c:88 | `x.num % y.num` with no zero check | `% 1 0` is undefined behaviour | the division-by-zero code, like `/` | not executed | Repl.ModByZeroFinding | Repl.EvalOp |
| repl.c:128-130 | a lone `-` operand is negated by number, even when it is an error | `- (/ 1 0)` gives a number made from an unset field | keep the error | not executed | Repl.NegationFinding | Repl.Negate |
