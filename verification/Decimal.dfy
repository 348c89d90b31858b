/** Decimal numbers as bytes: what "%ld" prints and atol reads. */
module Decimal {

  type Byte = bv8

  const MINUS: Byte := 0x2d
  const PLUS: Byte := 0x2b
  const CR: Byte := 0x0d
  const LF: Byte := 0x0a

  const LONG_MAX := 9223372036854775807
  const LONG_MIN := -9223372036854775808

  function DigitByte(d: nat): Byte
    requires d < 10
  {
    match d
    case 0 => 0x30 case 1 => 0x31 case 2 => 0x32 case 3 => 0x33 case 4 => 0x34
    case 5 => 0x35 case 6 => 0x36 case 7 => 0x37 case 8 => 0x38 case _ => 0x39
  }

  // The value of a digit, or -1.
  function DigitValue(b: Byte): (r: int)
    ensures -1 <= r <= 9
  {
    if b == 0x30 then 0 else if b == 0x31 then 1 else if b == 0x32 then 2
    else if b == 0x33 then 3 else if b == 0x34 then 4 else if b == 0x35 then 5
    else if b == 0x36 then 6 else if b == 0x37 then 7 else if b == 0x38 then 8
    else if b == 0x39 then 9 else -1
  }

  lemma DigitRead(d: nat)
    requires d < 10
    ensures DigitValue(DigitByte(d)) == d
    ensures DigitByte(d) != MINUS && DigitByte(d) != PLUS && DigitByte(d) != LF && !IsSpace(DigitByte(d))
  {}

  predicate IsSpace(b: Byte) {
    b == 0x20 || b == 0x09 || b == LF || b == 0x0b || b == 0x0c || b == CR
  }

  function Digits(n: nat): (r: seq<Byte>)
    ensures |r| >= 1
  {
    if n < 10 then [DigitByte(n)] else Digits(n / 10) + [DigitByte(n % 10)]
  }

  function Print(n: int): seq<Byte> {
    if n < 0 then [MINUS] + Digits(-n) else Digits(n)
  }

  // The digits at the front of s, after those that make up acc.
  function Scan(s: seq<Byte>, acc: nat): nat {
    if s == [] || DigitValue(s[0]) == -1 then acc else Scan(s[1..], acc * 10 + DigitValue(s[0]))
  }

  function SkipSpace(s: seq<Byte>): seq<Byte> {
    if s == [] || !IsSpace(s[0]) then s else SkipSpace(s[1..])
  }

  function Signed(t: seq<Byte>): int {
    if t == [] then 0
    else if t[0] == MINUS then var m: int := Scan(t[1..], 0); -m
    else if t[0] == PLUS then Scan(t[1..], 0)
    else Scan(t, 0)
  }

  // atol: it saturates outside the range of a long.
  function Atol(s: seq<Byte>): (n: int)
    ensures LONG_MIN <= n <= LONG_MAX
  {
    var v := Signed(SkipSpace(s));
    if v > LONG_MAX then LONG_MAX else if v < LONG_MIN then LONG_MIN else v
  }

  lemma {:induction false} ScanDigits(n: nat, rest: seq<Byte>)
    ensures Scan(Digits(n) + rest, 0) == Scan(rest, n)
  {
    hide DigitByte, DigitValue;
    var d := n % 10;
    DigitRead(d);
    if n < 10 {
      assert (Digits(n) + rest)[1..] == rest;
    } else {
      var s := [DigitByte(d)] + rest;
      ScanDigits(n / 10, s);
      assert Digits(n) + rest == Digits(n / 10) + s;
      assert s[1..] == rest;
    }
  }

  lemma {:induction false} DigitsBegin(n: nat) returns (d: nat)
    ensures d < 10 && Digits(n)[0] == DigitByte(d)
  {
    hide DigitByte;
    if n < 10 { d := n; } else { d := DigitsBegin(n / 10); }
  }

  // Reading a printed number gives it back, whatever stands behind it, spaces in
  // front of it and a plus sign make no difference, and outside the range of a
  // long the nearest long is read.
  lemma AtolPrint(n: int, spaces: seq<Byte>, plus: bool, rest: seq<Byte>)
    requires forall i :: 0 <= i < |spaces| ==> IsSpace(spaces[i])
    requires rest != [] ==> DigitValue(rest[0]) == -1
    ensures Atol(spaces + (if plus && n >= 0 then [PLUS] else []) + Print(n) + rest)
         == if n < LONG_MIN then LONG_MIN else if n > LONG_MAX then LONG_MAX else n
  {
    hide DigitByte, DigitValue, Digits, IsSpace, PLUS, MINUS;
    var m := if n < 0 then -n else n;
    var sign := if n < 0 then [MINUS] else if plus then [PLUS] else [];
    var s := sign + (Digits(m) + rest);
    assert spaces + (if plus && n >= 0 then [PLUS] else []) + Print(n) + rest == spaces + s;
    var d := DigitsBegin(m);
    DigitRead(d);
    Signs();
    SkipAll(spaces, s);
    ScanDigits(m, rest);
    if sign == [] { assert s == Digits(m) + rest; } else { assert s[1..] == Digits(m) + rest; }
  }

  lemma Signs()
    ensures !IsSpace(MINUS) && !IsSpace(PLUS) && MINUS != PLUS
  {}

  lemma {:induction false} SkipAll(spaces: seq<Byte>, s: seq<Byte>)
    requires forall i :: 0 <= i < |spaces| ==> IsSpace(spaces[i])
    requires s != [] && !IsSpace(s[0])
    ensures SkipSpace(spaces + s) == s
  {
    hide IsSpace;
    if spaces == [] {
      assert spaces + s == s;
    } else {
      assert (spaces + s)[1..] == spaces[1..] + s;
      SkipAll(spaces[1..], s);
    }
  }

  // The number that a sequence of digits stands for.
  ghost function Value(s: seq<Byte>): int {
    if s == [] then 0 else 10 * Value(s[..|s| - 1]) + (s[|s| - 1] as int - 0x30)
  }

  // What is printed are the digits of the number from 0 to 9, in the order of
  // their weight and without a zero in front, behind a minus if it is negative.
  lemma {:induction false} PrintDigits(n: int)
    requires n >= 0
    ensures Value(Print(n)) == n && |Print(n)| >= 1
    ensures forall i :: 0 <= i < |Print(n)| ==> 0x30 <= Print(n)[i] as int <= 0x39
    ensures |Print(n)| > 1 ==> Print(n)[0] != 0x30
    ensures n > 0 ==> Print(-n) == [MINUS] + Print(n) && Print(n)[0] != 0x30
  {
    hide DigitByte;
    DigitCode(n % 10);
    if n >= 10 {
      PrintDigits(n / 10);
      var r := Digits(n);
      assert r[..|r| - 1] == Digits(n / 10) && r[|r| - 1] == DigitByte(n % 10);
    } else {
      assert Digits(n)[..0] == [];
    }
  }

  lemma DigitCode(d: nat)
    requires d < 10
    ensures DigitByte(d) as int == 0x30 + d && (d > 0 ==> DigitByte(d) != 0x30)
  {}

  lemma {:induction false} NoLineFeed(n: nat)
    ensures forall i :: 0 <= i < |Digits(n)| ==> Digits(n)[i] != LF
  {
    hide DigitByte;
    DigitRead(n % 10);
    if n >= 10 { NoLineFeed(n / 10); }
  }

  function Pow10(k: nat): nat {
    if k == 0 then 1 else 10 * Pow10(k - 1)
  }

  lemma {:induction false} FewDigits(n: nat, k: nat)
    requires k >= 1 && n < Pow10(k)
    ensures |Digits(n)| <= k
  {
    hide DigitByte;
    if n >= 10 {
      assert k > 1;
      FewDigits(n / 10, k - 1);
    }
  }

  // A printed long has no line feed and takes at most 20 bytes.
  lemma PrintLine(n: int)
    requires LONG_MIN <= n <= LONG_MAX
    ensures |Print(n)| <= 20 && forall i :: 0 <= i < |Print(n)| ==> Print(n)[i] != LF
  {
    hide Digits;
    var m := if n < 0 then -n else n;
    assert Pow10(5) == 100000;
    assert Pow10(10) == 10000000000;
    assert Pow10(15) == 1000000000000000;
    assert Pow10(19) == 10000000000000000000;
    FewDigits(m, 19);
    NoLineFeed(m);
  }
}
