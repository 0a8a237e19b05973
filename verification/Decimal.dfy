/** `%d` and `strtol`/`atoi` in base ten. */
module Decimal {

  function Digit(d: nat): char
    requires d < 10
  {
    '0' + d as char
  }

  predicate IsDigit(c: char) {
    '0' <= c <= '9'
  }

  function DigitValue(c: char): nat
    requires IsDigit(c)
  {
    (c - '0') as nat
  }

  function Digits(n: nat): (s: string)
    ensures s != [] && forall i :: 0 <= i < |s| ==> IsDigit(s[i])
  {
    if n < 10 then [Digit(n)] else Digits(n / 10) + [Digit(n % 10)]
  }

  /** `printf("%d")`. */
  function Print(i: int): string {
    if i < 0 then "-" + Digits(-i) else Digits(i)
  }

  /** The number spelled by the leading digits, continuing from `acc`. */
  function LeadingNumber(s: string, acc: nat): nat {
    if s == [] || !IsDigit(s[0]) then acc else LeadingNumber(s[1..], 10 * acc + DigitValue(s[0]))
  }

  predicate IsSpace(c: char) {
    c == ' ' || c == '\t' || c == '\n' || c == '\r' || c == '\U{0B}' || c == '\U{0C}'
  }

  function SkipSpace(s: string): string {
    if s != [] && IsSpace(s[0]) then SkipSpace(s[1..]) else s
  }

  const LONG_MAX: int := 0x7FFF_FFFF_FFFF_FFFF
  const LONG_MIN: int := -0x8000_0000_0000_0000

  /** `strtol(s, &end, 10)`: the value, clamped, and whether any digit was read. */
  function Strtol(s: string): (int, bool) {
    var t := SkipSpace(s);
    var negative := t != [] && t[0] == '-';
    var body := if t != [] && (t[0] == '-' || t[0] == '+') then t[1..] else t;
    if body == [] || !IsDigit(body[0]) then (0, false)
    else
      var n := LeadingNumber(body, 0);
      var v := if negative then -(n as int) else n as int;
      (if v > LONG_MAX then LONG_MAX else if v < LONG_MIN then LONG_MIN else v, true)
  }

  /** The cast of a `long` to a 32-bit `int`. */
  function CastInt(v: int): int {
    var low := v % 0x1_0000_0000;
    if low >= 0x8000_0000 then low - 0x1_0000_0000 else low
  }

  predicate IsInt(i: int) {
    -0x8000_0000 <= i < 0x8000_0000
  }

  lemma {:induction false} LeadingAppend(a: string, b: string, acc: nat)
    requires forall i :: 0 <= i < |a| ==> IsDigit(a[i])
    ensures LeadingNumber(a + b, acc) == LeadingNumber(b, LeadingNumber(a, acc))
  {
    if a == [] {
      assert a + b == b;
    } else {
      assert (a + b)[1..] == a[1..] + b;
      LeadingAppend(a[1..], b, 10 * acc + DigitValue(a[0]));
    }
  }

  lemma {:induction false} DigitsRead(n: nat)
    ensures LeadingNumber(Digits(n), 0) == n
  {
    if n < 10 {
      assert Digits(n)[1..] == [];
    } else {
      DigitsRead(n / 10);
      LeadingAppend(Digits(n / 10), [Digit(n % 10)], 0);
      assert [Digit(n % 10)][1..] == [];
    }
  }

  /** Printing and reading back loses nothing. */
  lemma PrintReads(i: int)
    requires IsInt(i)
    ensures Strtol(Print(i)) == (i, true) && CastInt(i) == i
  {
    if i < 0 {
      DigitsRead(-i);
      assert Print(i)[1..] == Digits(-i);
    } else {
      DigitsRead(i);
    }
  }

  /** Printed numbers are short and hold neither separators nor white space. */
  lemma {:induction false} DigitsAreShort(n: nat, k: nat, bound: nat)
    requires k >= 1 && n < bound && bound == Power10(k)
    ensures |Digits(n)| <= k
    decreases k
  {
    if n >= 10 {
      assert k >= 2;
      DigitsAreShort(n / 10, k - 1, Power10(k - 1));
    }
  }

  function Power10(k: nat): nat {
    if k == 0 then 1 else 10 * Power10(k - 1)
  }

  // ---------------------------------------------------------------------------------------
  // What any text reads as, not only a printed number.

  ghost predicate AllDigits(s: string) {
    forall i :: 0 <= i < |s| ==> '0' <= s[i] <= '9'
  }

  /** The number a string of digits spells, leading zeros or not. */
  ghost function ValueOf(ds: string): nat
    requires AllDigits(ds)
  {
    if ds == [] then 0 else 10 * ValueOf(ds[..|ds| - 1]) + (ds[|ds| - 1] as int - '0' as int)
  }

  lemma {:induction false} LeadingIsValue(ds: string, rest: string)
    requires AllDigits(ds) && (rest == [] || !('0' <= rest[0] <= '9'))
    ensures LeadingNumber(ds + rest, 0) == ValueOf(ds)
  {
    LeadingAppend(ds, rest, 0);
    LeadingOfDigits(ds);
  }

  lemma {:induction false} LeadingOfDigits(ds: string)
    requires AllDigits(ds)
    ensures LeadingNumber(ds, 0) == ValueOf(ds)
  {
    if ds != [] {
      var front, last := ds[..|ds| - 1], ds[|ds| - 1];
      LeadingOfDigits(front);
      LeadingAppend(front, [last], 0);
      assert front + [last] == ds && [last][1..] == [];
    }
  }

  lemma {:induction false} SpacesSkipped(spaces: string, rest: string)
    requires forall i :: 0 <= i < |spaces| ==> spaces[i] in {' ', '\t', '\n', '\r', '\U{0B}', '\U{0C}'}
    requires rest == [] || !IsSpace(rest[0])
    ensures SkipSpace(spaces + rest) == rest
  {
    if spaces == [] {
      assert spaces + rest == rest;
    } else {
      assert (spaces + rest)[1..] == spaces[1..] + rest;
      SpacesSkipped(spaces[1..], rest);
    }
  }

  function Clamped(v: int): int {
    if v > 9_223_372_036_854_775_807 then 9_223_372_036_854_775_807
    else if v < -9_223_372_036_854_775_808 then -9_223_372_036_854_775_808
    else v
  }

  /** White space, at most one sign, digits, and whatever follows them: the digits' value under
      that sign, held within 64 bits. */
  lemma StrtolReads(spaces: string, sign: string, ds: string, rest: string)
    requires forall i :: 0 <= i < |spaces| ==> spaces[i] in {' ', '\t', '\n', '\r', '\U{0B}', '\U{0C}'}
    requires sign == "" || sign == "+" || sign == "-"
    requires ds != "" && AllDigits(ds) && (rest == [] || !('0' <= rest[0] <= '9'))
    ensures Strtol(spaces + (sign + (ds + rest))) ==
            (Clamped(if sign == "-" then -(ValueOf(ds) as int) else ValueOf(ds)), true)
  {
    var body := ds + rest;
    var t := sign + body;
    assert body[0] == ds[0] && t[|sign|..] == body;
    SpacesSkipped(spaces, t);
    LeadingIsValue(ds, rest);
  }

  /** Without a digit there, nothing is read. */
  lemma StrtolReadsNothing(spaces: string, sign: string, rest: string)
    requires forall i :: 0 <= i < |spaces| ==> spaces[i] in {' ', '\t', '\n', '\r', '\U{0B}', '\U{0C}'}
    requires sign == "" || sign == "+" || sign == "-"
    requires rest == [] || !('0' <= rest[0] <= '9')
    requires sign == "" && rest != "" ==>
               rest[0] !in {' ', '\t', '\n', '\r', '\U{0B}', '\U{0C}', '+', '-'}
    ensures Strtol(spaces + (sign + rest)) == (0, false)
  {
    var t := sign + rest;
    assert t[|sign|..] == rest;
    SpacesSkipped(spaces, t);
  }

  /** The cast keeps the low 32 bits, read as a signed number. */
  lemma CastKeepsLowBits(v: int)
    ensures -2_147_483_648 <= CastInt(v) <= 2_147_483_647 && (v - CastInt(v)) % 4_294_967_296 == 0
  {
  }
}
