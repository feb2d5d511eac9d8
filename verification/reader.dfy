/**
 * `lval_read`: a parse-tree node becomes a value. A node whose tag mentions
 * "number" is converted with `strtol`, one whose tag mentions "symbol"
 * becomes a symbol of its text, and a root (">"), "sexpr" or "qexpr" node
 * becomes a list of its children read in order, leaving out the bracket
 * tokens and the "regex" anchors.
 */
module Reader {
  import opened CArith
  import opened Decimal
  import opened Ast
  import opened Values

  /** The children `lval_read` skips. */
  predicate Skipped(c: Node)
  {
    c.contents == "(" || c.contents == ")" || c.contents == "}" || c.contents == "{" || c.tag == "regex"
  }

  predicate IsContainer(tag: string)
  {
    tag == ">" || Contains(tag, "sexpr") || Contains(tag, "qexpr")
  }

  /**
   * The trees `lval_read` can read: every node it reaches is a number, a
   * symbol or a list. On any other tag the C code adds cells to a null list.
   */
  predicate Readable(t: Node)
  {
    || Contains(t.tag, "number")
    || Contains(t.tag, "symbol")
    || (IsContainer(t.tag) &&
        forall i :: 0 <= i < |t.children| && !Skipped(t.children[i]) ==> Readable(t.children[i]))
  }

  predicate AllReadable(cs: seq<Node>)
  {
    forall i :: 0 <= i < |cs| && !Skipped(cs[i]) ==> Readable(cs[i])
  }

  /** `lval_read_num`: ERANGE from `strtol` is the reader's invalid-number error. */
  function ReadNumber(text: string): (r: Value)
    ensures r.Num? || r == Err(ReadInvalidNumber)
    ensures r.Num? ==> LongMin <= r.n <= LongMax
  {
    match Strtol(text)
    case InRange(n) => Num(n)
    case OutOfRange => Err(ReadInvalidNumber)
  }

  /** `lval_read`. */
  function Read(t: Node): (r: Value)
    requires Readable(t)
    ensures Contains(t.tag, "number") ==> r == ReadNumber(t.contents)
    ensures !Contains(t.tag, "number") && Contains(t.tag, "symbol") ==> r == Sym(t.contents)
    ensures !Contains(t.tag, "number") && !Contains(t.tag, "symbol") ==>
      r == (if Contains(t.tag, "qexpr") then QExpr(ReadChildren(t.children)) else SExpr(ReadChildren(t.children)))
    decreases t
  {
    if Contains(t.tag, "number") then ReadNumber(t.contents)
    else if Contains(t.tag, "symbol") then Sym(t.contents)
    else
      // a later matching test overrides an earlier one, so "qexpr" wins
      var cells := ReadChildren(t.children);
      if Contains(t.tag, "qexpr") then QExpr(cells) else SExpr(cells)
  }

  /** The loop of `lval_read` over the children, adding each one read. */
  function ReadChildren(cs: seq<Node>): (r: seq<Value>)
    requires AllReadable(cs)
    ensures |r| <= |cs|
    decreases cs
  {
    if |cs| == 0 then []
    else if Skipped(cs[0]) then ReadChildren(cs[1..])
    else [Read(cs[0])] + ReadChildren(cs[1..])
  }

  /** The children that are read, in their original order. */
  function Kept(cs: seq<Node>): (r: seq<Node>)
    ensures forall i :: 0 <= i < |r| ==> !Skipped(r[i])
    ensures AllReadable(cs) ==> forall i :: 0 <= i < |r| ==> Readable(r[i])
  {
    if |cs| == 0 then []
    else
      TailReadable(cs);
      if Skipped(cs[0]) then Kept(cs[1..]) else [cs[0]] + Kept(cs[1..])
  }

  lemma TailReadable(cs: seq<Node>)
    requires |cs| > 0
    ensures AllReadable(cs) ==> AllReadable(cs[1..])
  {
    if AllReadable(cs) {
      forall i | 0 <= i < |cs[1..]| && !Skipped(cs[1..][i])
        ensures Readable(cs[1..][i])
      {
        assert cs[1..][i] == cs[i + 1];
      }
    }
  }

  /** Each node read in turn. */
  function MapRead(ks: seq<Node>): (r: seq<Value>)
    requires forall i :: 0 <= i < |ks| ==> Readable(ks[i])
    ensures |r| == |ks|
    ensures forall i :: 0 <= i < |ks| ==> r[i] == Read(ks[i])
  {
    if |ks| == 0 then [] else [Read(ks[0])] + MapRead(ks[1..])
  }

  /** The list cells are the reads of the kept children, in the same order. */
  lemma {:induction false} ReadChildrenKept(cs: seq<Node>)
    requires AllReadable(cs)
    ensures ReadChildren(cs) == MapRead(Kept(cs))
  {
    if |cs| > 0 {
      TailReadable(cs);
      ReadChildrenKept(cs[1..]);
      if !Skipped(cs[0]) {
        var k := Kept(cs[1..]);
        assert Kept(cs) == [cs[0]] + k;
        assert ([cs[0]] + k)[1..] == k;
      }
    }
  }

  /** Reading the children of a concatenation concatenates the reads: order is kept. */
  lemma {:induction false} ReadChildrenAppend(a: seq<Node>, b: seq<Node>)
    requires AllReadable(a) && AllReadable(b)
    ensures AllReadable(a + b)
    ensures ReadChildren(a + b) == ReadChildren(a) + ReadChildren(b)
    decreases |a|
  {
    AppendReadable(a, b);
    if |a| == 0 {
      assert a + b == b;
    } else {
      TailReadable(a);
      ReadChildrenAppend(a[1..], b);
      ReadChildrenCons(a);
      ReadChildrenCons(a + b);
      assert (a + b)[1..] == a[1..] + b;
      assert (a + b)[0] == a[0];
    }
  }

  /** The first child contributes its reading, unless it is skipped. */
  lemma ReadChildrenCons(cs: seq<Node>)
    requires |cs| > 0 && AllReadable(cs)
    ensures AllReadable(cs[1..])
    ensures ReadChildren(cs) == (if Skipped(cs[0]) then [] else [Read(cs[0])]) + ReadChildren(cs[1..])
  {
    TailReadable(cs);
    if Skipped(cs[0]) {
      assert [] + ReadChildren(cs[1..]) == ReadChildren(cs[1..]);
    }
  }

  lemma AppendReadable(a: seq<Node>, b: seq<Node>)
    requires AllReadable(a) && AllReadable(b)
    ensures AllReadable(a + b)
  {
    forall i | 0 <= i < |a + b| && !Skipped((a + b)[i])
      ensures Readable((a + b)[i])
    {
      if i < |a| { assert (a + b)[i] == a[i]; } else { assert (a + b)[i] == b[i - |a|]; }
    }
  }

  /** The reader never builds a function: those exist only in the environment. */
  predicate NoFunctions(v: Value)
  {
    match v
    case Fun(_) => false
    case SExpr(cells) => forall i :: 0 <= i < |cells| ==> NoFunctions(cells[i])
    case QExpr(cells) => forall i :: 0 <= i < |cells| ==> NoFunctions(cells[i])
    case _ => true
  }

  lemma {:induction false} ReadNoFunctions(t: Node)
    requires Readable(t)
    ensures NoFunctions(Read(t))
    decreases t
  {
    if !Contains(t.tag, "number") && !Contains(t.tag, "symbol") {
      ReadChildrenNoFunctions(t.children);
    }
  }

  lemma {:induction false} ReadChildrenNoFunctions(cs: seq<Node>)
    requires AllReadable(cs)
    ensures forall i :: 0 <= i < |ReadChildren(cs)| ==> NoFunctions(ReadChildren(cs)[i])
    decreases cs
  {
    if |cs| > 0 {
      TailReadable(cs);
      ReadChildrenNoFunctions(cs[1..]);
      if !Skipped(cs[0]) {
        ReadNoFunctions(cs[0]);
      }
    }
  }

  /**
   * A printed integer reads back as the same number when it fits in a
   * `long`, and as the reader's invalid-number error when it does not.
   */
  lemma ReadShownNumber(n: int)
    ensures ReadNumber(ShowInt(n)) == if LongMin <= n <= LongMax then Num(n) else Err(ReadInvalidNumber)
  {
    StrtolShowInt(n);
  }

  /**
   * `lval_read_num` as written: `strtol`'s long lands in an `int` before
   * `lval_num` widens it again, so a number outside 32 bits wraps.
   */
  function ReadNumberAsWritten(text: string): (r: Value)
    ensures r.Num? ==> IntMin <= r.n <= IntMax
    ensures r.Err? <==> ReadNumber(text).Err?
    ensures r.Num? ==> r.n == WrapInt(ReadNumber(text).n)
  {
    match Strtol(text)
    case InRange(n) => Num(WrapInt(n))
    case OutOfRange => Err(ReadInvalidNumber)
  }

  /**
   * A printed number above the `int` range but within `long`, such as
   * 2147483648, reads as a different number as written, and as itself
   * through a `long`.
   */
  lemma IntTruncationFinding(n: int)
    requires IntMax < n <= LongMax
    ensures ReadNumberAsWritten(ShowInt(n)) == Num(WrapInt(n)) && WrapInt(n) != n
    ensures ReadNumber(ShowInt(n)) == Num(n)
    ensures n == 0x8000_0000 ==> WrapInt(n) == -0x8000_0000
  {
    ReadShownNumber(n);
  }
}
