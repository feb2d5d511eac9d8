/**
 * C integer semantics that the interpreter relies on. Dafny's `/` and `%`
 * on `int` are Euclidean; C99 (section 6.5.5 of ISO/IEC 9899) truncates the
 * quotient toward zero, and the remainder takes the sign of the dividend.
 * Integers are unbounded: `long` overflow in `+`, `-`, `*` is undefined in C
 * and is not modelled.
 */
module CArith {

  /** The range of a 64-bit `long` (LP64), used by the `strtol` range check. */
  const LongMin: int := -0x8000_0000_0000_0000
  const LongMax: int := 0x7fff_ffff_ffff_ffff
  const IntMin: int := -0x8000_0000
  const IntMax: int := 0x7fff_ffff

  /**
   * Assigning a `long` to an `int`: the value modulo 2^32, taken in the
   * 32-bit two's-complement range (what GCC and Clang do; the C standard
   * leaves it to the implementation).
   */
  function WrapInt(n: int): (r: int)
    ensures IntMin <= r <= IntMax
    ensures (n - r) % 0x1_0000_0000 == 0
    ensures IntMin <= n <= IntMax ==> r == n
  {
    var m := n % 0x1_0000_0000;
    if m > IntMax then m - 0x1_0000_0000 else m
  }

  function Abs(a: int): (r: nat)
    ensures r == a || r == -a
  {
    if a < 0 then -a else a
  }

  /** C's `a / b`: the quotient truncated toward zero. */
  function TDiv(a: int, b: int): (q: int)
    requires b != 0
    ensures Abs(q) * Abs(b) <= Abs(a) < Abs(q) * Abs(b) + Abs(b)
    ensures q == 0 || ((q < 0) <==> ((a < 0) != (b < 0)))
  {
    var m := Abs(a) / Abs(b);
    DivBounds(Abs(a), Abs(b));
    if (a < 0) != (b < 0) then -m else m
  }

  /** C's `a % b`: what is left after the truncated quotient. */
  function TMod(a: int, b: int): (r: int)
    requires b != 0
    ensures a == TDiv(a, b) * b + r
    ensures Abs(r) < Abs(b)
    ensures r == 0 || ((r < 0) <==> (a < 0))
  {
    ModBounds(a, b);
    a - TDiv(a, b) * b
  }

  lemma DivBounds(a: nat, b: nat)
    requires b > 0
    ensures (a / b) * b <= a < (a / b) * b + b
  {
  }

  lemma ModBounds(a: int, b: int)
    requires b != 0
    ensures Abs(a - TDiv(a, b) * b) < Abs(b)
    ensures a - TDiv(a, b) * b == 0 || ((a - TDiv(a, b) * b < 0) <==> (a < 0))
  {
    var q := TDiv(a, b);
    var p := Abs(q) * Abs(b);
    assert p <= Abs(a) < p + Abs(b);
    AbsMul(q, b);
    // q * b has the sign of a (or is zero), with magnitude p
    if a >= 0 {
      assert q * b >= 0 by { SignOfProduct(q, b, a); }
      assert q * b == p;
    } else {
      assert q * b <= 0 by { SignOfProduct(q, b, a); }
      assert q * b == -p;
    }
  }

  lemma SignOfProduct(q: int, b: int, a: int)
    requires b != 0
    requires q == 0 || ((q < 0) <==> ((a < 0) != (b < 0)))
    ensures a >= 0 ==> q * b >= 0
    ensures a < 0 ==> q * b <= 0
  {
    if q != 0 {
      if q < 0 && b < 0 { assert q * b == (-q) * (-b); }
      else if q < 0 { assert q * b == -((-q) * b); }
      else if b < 0 { assert q * b == -(q * (-b)); }
    }
  }

  lemma AbsMul(x: int, y: int)
    ensures Abs(x * y) == Abs(x) * Abs(y)
  {
    if x < 0 && y < 0 { assert x * y == (-x) * (-y); }
    else if x < 0 { assert x * y == -((-x) * y); }
    else if y < 0 { assert x * y == -(x * (-y)); }
  }

  /** x raised to a non-negative power, exactly. */
  function NatPow(x: int, y: nat): int
  {
    if y == 0 then 1 else x * NatPow(x, y - 1)
  }

  /**
   * `(long) pow(x, y)`: exact for a non-negative exponent, and for a
   * negative one the real quotient 1/x^|y| truncated toward zero. Zero to a
   * negative power (an infinity in C) is excluded.
   */
  function Power(x: int, y: int): (r: int)
    requires y >= 0 || x != 0
    ensures y >= 0 ==> r == NatPow(x, y)
    ensures y < 0 ==> NatPow(x, -y) != 0 && r == TDiv(1, NatPow(x, -y))
  {
    if y >= 0 then NatPow(x, y)
    else
      NegativePower(x, -y);
      if x == 1 then 1
      else if x == -1 then (if y % 2 == 0 then 1 else -1)
      else 0
  }

  lemma NegativePower(x: int, k: nat)
    requires x != 0 && k >= 1
    ensures NatPow(x, k) != 0
    ensures x == 1 ==> TDiv(1, NatPow(x, k)) == 1
    ensures x == -1 ==> TDiv(1, NatPow(x, k)) == (if k % 2 == 0 then 1 else -1)
    ensures x != 1 && x != -1 ==> TDiv(1, NatPow(x, k)) == 0
  {
    NatPowAbs(x, k);
    NatPowGrows(Abs(x), k);
    if x == 1 { NatPowOne(k); }
    if x == -1 { NatPowMinusOne(k); }
  }

  lemma {:induction false} NatPowAbs(x: int, k: nat)
    ensures Abs(NatPow(x, k)) == NatPow(Abs(x), k)
  {
    if k > 0 {
      NatPowAbs(x, k - 1);
      AbsMul(x, NatPow(x, k - 1));
    }
  }

  lemma {:induction false} NatPowGrows(a: int, k: nat)
    requires a >= 1 && k >= 1
    ensures NatPow(a, k) >= a
  {
    if k > 1 {
      NatPowGrows(a, k - 1);
      assert a * NatPow(a, k - 1) >= a * 1;
    }
  }

  lemma {:induction false} NatPowOne(k: nat)
    ensures NatPow(1, k) == 1
  {
    if k > 0 { NatPowOne(k - 1); }
  }

  lemma {:induction false} NatPowMinusOne(k: nat)
    ensures NatPow(-1, k) == if k % 2 == 0 then 1 else -1
  {
    if k > 0 { NatPowMinusOne(k - 1); }
  }
}
