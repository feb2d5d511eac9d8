/**
 * The stack primitives on a list value's cells: `lval_add` appends a cell,
 * `lval_pop` removes the cell at an index and hands it back, `lval_take`
 * keeps only that cell, and `lval_join` moves the cells of one list onto the
 * end of another, one `lval_pop(k, 0)` at a time.
 */
module Cells {
  import opened Values

  /** `lval_add`. */
  function Add(cells: seq<Value>, k: Value): (r: seq<Value>)
    ensures |r| == |cells| + 1 && r[..|cells|] == cells && r[|cells|] == k
  {
    cells + [k]
  }

  /** `lval_pop`: the removed cell, and the remaining cells. */
  function Pop(cells: seq<Value>, i: nat): (r: (Value, seq<Value>))
    requires i < |cells|
    ensures r.0 == cells[i]
    ensures |r.1| == |cells| - 1
    ensures forall j :: 0 <= j < i ==> r.1[j] == cells[j]
    ensures forall j :: i <= j < |r.1| ==> r.1[j] == cells[j + 1]
  {
    (cells[i], cells[..i] + cells[i + 1..])
  }

  /** `lval_take`: the cell at i; the rest of the list is discarded. */
  function Take(cells: seq<Value>, i: nat): (r: Value)
    requires i < |cells|
    ensures r == cells[i]
  {
    Pop(cells, i).0
  }

  /** `lval_join`: repeatedly pop the first cell of k and add it to v. */
  function Join(v: seq<Value>, k: seq<Value>): (r: seq<Value>)
    ensures r == v + k
    decreases |k|
  {
    if |k| == 0 then v
    else
      var (x, rest) := Pop(k, 0);
      Join(Add(v, x), rest)
  }

  /** Popping the first cell leaves the suffix. */
  lemma PopFirst(cells: seq<Value>)
    requires |cells| > 0
    ensures Pop(cells, 0).1 == cells[1..]
  {
  }

  /** Popping the last cell leaves the prefix. */
  lemma PopLast(cells: seq<Value>)
    requires |cells| > 0
    ensures Pop(cells, |cells| - 1).1 == cells[..|cells| - 1]
  {
  }

  /** Putting a popped cell back where it was restores the list. */
  lemma PopRestore(cells: seq<Value>, i: nat)
    requires i < |cells|
    ensures var (x, rest) := Pop(cells, i); rest[..i] + [x] + rest[i..] == cells
  {
  }

  /** Popping the cell just added gives back the cell and the old list. */
  lemma PopAdd(cells: seq<Value>, k: Value)
    ensures Pop(Add(cells, k), |cells|) == (k, cells)
  {
    var a := Add(cells, k);
    assert a[..|cells|] + a[|cells| + 1..] == cells;
  }

  /** Popping removes exactly one occurrence of the popped cell. */
  lemma PopMultiset(cells: seq<Value>, i: nat)
    requires i < |cells|
    ensures multiset(Pop(cells, i).1) + multiset{cells[i]} == multiset(cells)
  {
    assert cells == cells[..i] + [cells[i]] + cells[i + 1..];
  }
}
