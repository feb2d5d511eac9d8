/**
 * Base-10 text and integers: the C library's `strtol(s, NULL, 10)` as the
 * reader and the REPL call it, and `printf("%li", n)` as the printer shows a
 * number. `long` is taken to be 64 bits wide.
 */
module Decimal {
  import opened CArith

  /** What `strtol` reports: the converted value, or `errno == ERANGE`. */
  datatype Conversion = InRange(n: int) | OutOfRange

  /** C `isspace` in the "C" locale. */
  predicate IsSpace(c: char)
  {
    c == ' ' || c == '\t' || c == '\n' || c == '\r' || c as int == 11 || c as int == 12
  }

  predicate IsDigit(c: char)
  {
    '0' <= c <= '9'
  }

  function DigitValue(c: char): nat
    requires IsDigit(c)
  {
    c as int - '0' as int
  }

  function DigitChar(d: nat): (c: char)
    requires d < 10
    ensures IsDigit(c) && DigitValue(c) == d
  {
    ('0' as int + d) as char
  }

  /** Leading white space, which `strtol` skips. */
  function SkipSpace(s: string): (r: string)
    ensures |r| <= |s|
    ensures |r| > 0 ==> !IsSpace(r[0])
  {
    if |s| > 0 && IsSpace(s[0]) then SkipSpace(s[1..]) else s
  }

  /** What is skipped is a prefix of white space: the rest is a suffix of the text. */
  lemma {:induction false} SkipSpaceSuffix(s: string)
    ensures SkipSpace(s) == s[|s| - |SkipSpace(s)|..]
    ensures forall i :: 0 <= i < |s| - |SkipSpace(s)| ==> IsSpace(s[i])
    decreases |s|
  {
    if |s| > 0 && IsSpace(s[0]) {
      SkipSpaceSuffix(s[1..]);
      var r := SkipSpace(s);
      assert s[1..][|s| - 1 - |r|..] == s[|s| - |r|..];
      assert forall i :: 1 <= i < |s| - |r| ==> s[i] == s[1..][i - 1];
    }
  }

  /** The longest prefix of decimal digits. */
  function DigitPrefix(s: string): (r: string)
    ensures |r| <= |s| && r == s[..|r|]
    ensures forall i :: 0 <= i < |r| ==> IsDigit(r[i])
    ensures |r| < |s| ==> !IsDigit(s[|r|])
  {
    if |s| > 0 && IsDigit(s[0]) then [s[0]] + DigitPrefix(s[1..]) else []
  }

  /** The value of a digit string, most significant digit first. */
  function DigitsValue(d: string): nat
    requires forall i :: 0 <= i < |d| ==> IsDigit(d[i])
  {
    if |d| == 0 then 0 else DigitsValue(d[..|d| - 1]) * 10 + DigitValue(d[|d| - 1])
  }

  predicate IsSign(c: char)
  {
    c == '-' || c == '+'
  }

  /**
   * The number `strtol` reads, before any range check: white space, an
   * optional sign, then as many digits as follow. No digit at all reads as 0.
   */
  function StrtolValue(s: string): int
  {
    var t := SkipSpace(s);
    var u := if |t| > 0 && IsSign(t[0]) then t[1..] else t;
    var m: int := DigitsValue(DigitPrefix(u));
    if |t| > 0 && t[0] == '-' then -m else m
  }

  /**
   * `strtol(s, NULL, 10)` with the `errno` check of its callers: ERANGE
   * exactly when the number read lies outside the range of `long`.
   */
  function Strtol(s: string): (r: Conversion)
    ensures r.OutOfRange? <==> !(LongMin <= StrtolValue(s) <= LongMax)
    ensures r.InRange? ==> r.n == StrtolValue(s) && LongMin <= r.n <= LongMax
  {
    var value := StrtolValue(s);
    if LongMin <= value <= LongMax then InRange(value) else OutOfRange
  }

  /** Leading white space is skipped. */
  lemma StrtolSkipsSpace(c: char, s: string)
    requires IsSpace(c)
    ensures Strtol([c] + s) == Strtol(s)
  {
    assert ([c] + s)[1..] == s;
  }

  /** A `+` sign in front of the digits changes nothing; a `-` negates. */
  lemma StrtolSign(d: string)
    requires |d| == 0 || !(IsSpace(d[0]) || IsSign(d[0]))
    ensures StrtolValue("+" + d) == StrtolValue(d)
    ensures StrtolValue("-" + d) == -StrtolValue(d)
  {
    assert ("+" + d)[1..] == d;
    assert ("-" + d)[1..] == d;
  }

  /** A leading zero changes nothing: "007" reads as 7. */
  lemma StrtolLeadingZero(d: string)
    requires |d| == 0 || !(IsSpace(d[0]) || IsSign(d[0]))
    ensures Strtol("0" + d) == Strtol(d)
  {
    assert ("0" + d)[1..] == d;
    assert DigitPrefix("0" + d) == "0" + DigitPrefix(d);
    ZeroPrefixValue(DigitPrefix(d));
  }

  /** The conversion stops at the first character that is not a digit: "12ab" reads as 12. */
  lemma StrtolStopsAtNonDigit(ds: string, rest: string)
    requires |ds| > 0 && forall i :: 0 <= i < |ds| ==> IsDigit(ds[i])
    requires |rest| == 0 || !IsDigit(rest[0])
    ensures Strtol(ds + rest) == Strtol(ds)
    ensures Strtol("-" + (ds + rest)) == Strtol("-" + ds)
  {
    ValueStops(ds, rest);
    NegativeValueStops(ds, rest);
  }

  lemma ValueStops(ds: string, rest: string)
    requires |ds| > 0 && forall i :: 0 <= i < |ds| ==> IsDigit(ds[i])
    requires |rest| == 0 || !IsDigit(rest[0])
    ensures StrtolValue(ds + rest) == StrtolValue(ds)
  {
    DigitsThenRest(ds, rest);
    DigitsThenRest(ds, []);
    assert ds + [] == ds;
  }

  lemma NegativeValueStops(ds: string, rest: string)
    requires |ds| > 0 && forall i :: 0 <= i < |ds| ==> IsDigit(ds[i])
    requires |rest| == 0 || !IsDigit(rest[0])
    ensures StrtolValue("-" + (ds + rest)) == StrtolValue("-" + ds)
  {
    DigitsThenRest(ds, rest);
    DigitsThenRest(ds, []);
    assert ds + [] == ds;
  }

  /** Digits, possibly after a sign, followed by a non-digit: the digits are what is read. */
  lemma DigitsThenRest(ds: string, rest: string)
    requires |ds| > 0 && forall i :: 0 <= i < |ds| ==> IsDigit(ds[i])
    requires |rest| == 0 || !IsDigit(rest[0])
    ensures StrtolValue(ds + rest) == DigitsValue(ds)
    ensures StrtolValue("-" + (ds + rest)) == -(DigitsValue(ds) as int)
  {
    var u := ds + rest;
    DigitPrefixStops(ds, rest);
    assert u[0] == ds[0];
    StartsWithDigit(u);
  }

  /** Text that starts with a digit reads its digit prefix, with or without a minus sign before it. */
  lemma StartsWithDigit(u: string)
    requires |u| > 0 && IsDigit(u[0])
    ensures StrtolValue(u) == DigitsValue(DigitPrefix(u))
    ensures StrtolValue("-" + u) == -(DigitsValue(DigitPrefix(u)) as int)
  {
    NoSpaceFirst(u);
    NoSpaceFirst("-" + u);
    assert ("-" + u)[1..] == u;
  }

  lemma NoSpaceFirst(u: string)
    requires |u| > 0 && !IsSpace(u[0])
    ensures SkipSpace(u) == u
  {
  }

  /** Text with no digit in it reads as 0, without an error. */
  lemma StrtolNoDigits(s: string)
    requires forall i :: 0 <= i < |s| ==> !IsDigit(s[i])
    ensures Strtol(s) == InRange(0)
  {
    var t := SkipSpace(s);
    SkipSpaceSuffix(s);
    assert forall i :: 0 <= i < |t| ==> t[i] == s[|s| - |t| + i];
    var u := if |t| > 0 && IsSign(t[0]) then t[1..] else t;
    assert |u| > 0 ==> u[0] == t[|t| - |u|];
  }

  /** A zero in front of a digit string does not change its value. */
  lemma {:induction false} ZeroPrefixValue(d: string)
    requires forall i :: 0 <= i < |d| ==> IsDigit(d[i])
    ensures DigitsValue("0" + d) == DigitsValue(d)
    decreases |d|
  {
    var z := "0" + d;
    if |d| == 0 {
      assert z[..0] == [];
    } else {
      var p := d[..|d| - 1];
      assert z[..|z| - 1] == "0" + p;
      assert z[|z| - 1] == d[|d| - 1];
      ZeroPrefixValue(p);
    }
  }

  /** The digit prefix of digits followed by a non-digit is those digits. */
  lemma {:induction false} DigitPrefixStops(ds: string, rest: string)
    requires forall i :: 0 <= i < |ds| ==> IsDigit(ds[i])
    requires |rest| == 0 || !IsDigit(rest[0])
    ensures DigitPrefix(ds + rest) == ds
    decreases |ds|
  {
    if |ds| == 0 {
      assert ds + rest == rest;
    } else {
      assert (ds + rest)[1..] == ds[1..] + rest;
      DigitPrefixStops(ds[1..], rest);
      assert ds == [ds[0]] + ds[1..];
    }
  }

  /** The decimal digits of a natural number, without leading zeros. */
  function ShowNat(n: nat): (s: string)
    ensures |s| > 0
    ensures forall i :: 0 <= i < |s| ==> IsDigit(s[i])
  {
    if n < 10 then [DigitChar(n)] else ShowNat(n / 10) + [DigitChar(n % 10)]
  }

  /** `printf("%li", n)`. */
  function ShowInt(n: int): (s: string)
    ensures |s| > 0 && (s[0] == '-' || IsDigit(s[0]))
  {
    if n < 0 then "-" + ShowNat(-n) else ShowNat(n)
  }

  lemma {:induction false} ShowNatValue(n: nat)
    ensures DigitsValue(ShowNat(n)) == n
  {
    if n >= 10 {
      var s := ShowNat(n);
      assert s[..|s| - 1] == ShowNat(n / 10);
      ShowNatValue(n / 10);
    }
  }

  lemma AllDigitsPrefix(s: string)
    requires forall i :: 0 <= i < |s| ==> IsDigit(s[i])
    ensures DigitPrefix(s) == s
  {
  }

  /**
   * Converting a printed integer back gives the same number when it fits in
   * a `long`, and ERANGE when it does not.
   */
  lemma StrtolShowInt(n: int)
    ensures Strtol(ShowInt(n)) == if LongMin <= n <= LongMax then InRange(n) else OutOfRange
  {
    var s := ShowInt(n);
    var m: nat := if n < 0 then -n else n;
    var digits := ShowNat(m);
    assert SkipSpace(s) == s;
    AllDigitsPrefix(digits);
    ShowNatValue(m);
    if n < 0 {
      assert s == "-" + digits;
      assert s[1..] == digits;
    } else {
      assert s == digits;
    }
  }
}
