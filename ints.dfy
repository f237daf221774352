/** Java's 32-bit `int` as the model needs it: its range, wrap-around
    arithmetic, `Integer.toString` and `Integer.parseInt`. */
module Ints {
  import opened Wrappers

  type Int32 = x: int | -0x8000_0000 <= x < 0x8000_0000

  /** Two's-complement wrap-around, as Java's `+`, `-` and `*` on `int` do. */
  function Wrap32(x: int): (r: Int32)
    ensures (x - r) % 0x1_0000_0000 == 0
    ensures -0x8000_0000 <= x < 0x8000_0000 ==> r == x
  {
    (x + 0x8000_0000) % 0x1_0000_0000 - 0x8000_0000
  }

  /** A value that fits an `int` is the only wrap-around result of the
      numbers congruent to it. */
  lemma Wrap32OfCongruent(z: int, x: Int32)
    requires (z - x) % 0x1_0000_0000 == 0
    ensures Wrap32(z) == x
  {
    var k := (z - x) / 0x1_0000_0000;
    assert z == x + k * 0x1_0000_0000;
  }

  /** Subtracting what was added undoes the addition, overflow included. */
  lemma Wrap32Cancels(x: Int32, y: Int32)
    ensures Wrap32(Wrap32(x + y) - y) == x
  {
    var sum := Wrap32(x + y);
    var k := (x + y - sum) / 0x1_0000_0000;
    assert x + y - sum == k * 0x1_0000_0000;
    Wrap32OfCongruent(sum - y, x);
  }

  predicate IsDigit(c: char) {
    '0' <= c <= '9'
  }

  predicate AllDigits(s: string) {
    forall i :: 0 <= i < |s| ==> IsDigit(s[i])
  }

  function DigitChar(d: nat): (c: char)
    requires d < 10
    ensures IsDigit(c)
  {
    (48 + d) as char
  }

  function DigitValue(c: char): nat
    requires IsDigit(c)
  {
    c as int - 48
  }

  /** The shortest decimal spelling of a non-negative number. */
  function NatText(n: nat): (s: string)
    ensures 1 <= |s| && AllDigits(s)
  {
    if n < 10 then [DigitChar(n)] else NatText(n / 10) + [DigitChar(n % 10)]
  }

  /** `Integer.toString(n)`: a minus sign for negative values, then the digits. */
  function DecimalText(n: int): string {
    if n < 0 then "-" + NatText(-n) else NatText(n)
  }

  /** The value of a string of decimal digits, most significant first. */
  function DigitsValue(s: string): nat
    requires AllDigits(s)
  {
    if s == [] then 0 else DigitsValue(s[..|s| - 1]) * 10 + DigitValue(s[|s| - 1])
  }

  /** `Integer.parseInt(s)`: an optional `-` or `+`, then one or more decimal
      digits, and a value that fits an `int`. Anything else throws
      NumberFormatException, which is `None` here. */
  function ParseInt(s: string): Option<Int32> {
    var signed := |s| > 0 && (s[0] == '-' || s[0] == '+');
    var digits := if signed then s[1..] else s;
    if |digits| == 0 || !AllDigits(digits) then None
    else
      var v: int := if signed && s[0] == '-' then 0 - DigitsValue(digits) as int else DigitsValue(digits);
      if -0x8000_0000 <= v < 0x8000_0000 then Some(v) else None
  }

  /** Reading back the digits of a number gives the number. */
  lemma {:induction false} DigitsValueOfNatText(n: nat)
    ensures DigitsValue(NatText(n)) == n
  {
    if n >= 10 {
      var s := NatText(n);
      assert s[..|s| - 1] == NatText(n / 10);
      DigitsValueOfNatText(n / 10);
    }
  }

  /** `Integer.parseInt(Integer.toString(n)) == n` for every `int`. */
  lemma ParseIntOfDecimalText(n: Int32)
    ensures ParseInt(DecimalText(n)) == Some(n)
  {
    var s := DecimalText(n);
    if n < 0 {
      var m: nat := -(n as int);
      DigitsValueOfNatText(m);
      assert s == "-" + NatText(m);
      assert s[0] == '-' && s[1..] == NatText(m);
    } else {
      DigitsValueOfNatText(n);
      assert s == NatText(n) && IsDigit(s[0]);
    }
  }

  /** Digits-only text parses to its digit value when that value fits an
      `int`, and fails to parse when it does not. */
  lemma ParseIntOfDigits(s: string)
    requires |s| > 0 && AllDigits(s)
    ensures DigitsValue(s) < 0x8000_0000 ==> ParseInt(s) == Some(DigitsValue(s))
    ensures DigitsValue(s) >= 0x8000_0000 ==> ParseInt(s) == None
  {
    assert IsDigit(s[0]);
  }
}
