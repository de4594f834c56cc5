/** Numerals: decimal, and hexadecimal where base says so. */
module Numerals {

  type Base = b: nat | b == 10 || b == 16 witness 10

  predicate IsDigit(c: char, base: Base := 10) {
    '0' <= c <= '9' || (base == 16 && ('a' <= c <= 'f' || 'A' <= c <= 'F'))
  }

  function Digit(c: char, base: Base := 10): (d: nat)
    requires IsDigit(c, base)
    ensures d < base
  {
    c as int - if c <= '9' then '0' as int else if c <= 'F' then 'A' as int - 10 else 'a' as int - 10
  }

  function DigitChar(d: nat): (c: char)
    requires d < 10
    ensures IsDigit(c) && Digit(c) == d
  {
    ('0' as int + d) as char
  }

  predicate AllDigits(s: string, base: Base := 10) {
    forall i :: 0 <= i < |s| ==> IsDigit(s[i], base)
  }

  /** How many digits s starts with. */
  function DigitCount(s: string, base: Base := 10): (k: nat)
    ensures k <= |s| && AllDigits(s[..k], base) && (k < |s| ==> !IsDigit(s[k], base))
  {
    if s == [] || !IsDigit(s[0], base) then 0 else
      var k := DigitCount(s[1..], base);
      assert s[..k + 1] == [s[0]] + s[1..][..k];
      k + 1
  }

  function Times(base: Base, n: nat): nat {
    if base == 10 then 10 * n else 16 * n
  }

  /** The number s is the text of, with any leading zeros. */
  function Value(s: string, base: Base := 10): nat
    requires AllDigits(s, base)
  {
    if s == [] then 0 else Times(base, Value(s[..|s| - 1], base)) + Digit(s[|s| - 1], base)
  }

  lemma Append(s: string, c: char, base: Base := 10)
    requires AllDigits(s, base) && IsDigit(c, base)
    ensures AllDigits(s + [c], base) && Value(s + [c], base) == Times(base, Value(s, base)) + Digit(c, base)
  {
    assert (s + [c])[..|s|] == s;
  }

  function Power(n: nat, base: Base := 10): (p: nat)
    ensures p > 0
  {
    if n == 0 then 1 else Times(base, Power(n - 1, base))
  }

  lemma Powers()
    ensures Power(9) == 1_000_000_000 && Power(10) == 10_000_000_000
    ensures Power(18) == 1_000_000_000_000_000_000 && Power(19) == 10_000_000_000_000_000_000
  {
    assert Power(3) == 1000 && Power(6) == 1_000_000 && Power(9) == 1_000_000_000;
    assert Power(12) == 1_000_000_000_000 && Power(15) == 1_000_000_000_000_000;
  }

  lemma {:induction false} PowerGrows(a: nat, b: nat, base: Base := 10)
    requires a <= b
    ensures Power(a, base) <= Power(b, base)
  {
    if a < b {
      PowerGrows(a, b - 1, base);
    }
  }

  /** The first digit and the number of digits bound the number. */
  lemma {:induction false} Bounds(s: string, base: Base := 10)
    requires AllDigits(s, base) && s != []
    ensures Digit(s[0], base) * Power(|s| - 1, base) <= Value(s, base) < (Digit(s[0], base) + 1) * Power(|s| - 1, base)
  {
    if |s| == 1 {
      assert Value(s[..0], base) == 0;
    } else {
      var t, d, p := s[..|s| - 1], Digit(s[0], base), Power(|s| - 2, base);
      Bounds(t, base);
      Scale(base, d, p);
      Scale(base, d + 1, p);
    }
  }

  lemma Scale(base: Base, d: nat, p: nat)
    ensures d * Times(base, p) == Times(base, d * p)
  {
    assert d * (10 * p) == 10 * (d * p) && d * (16 * p) == 16 * (d * p);
  }

  function Print(n: nat): (s: string)
    ensures |s| > 0 && AllDigits(s)
  {
    if n < 10 then [DigitChar(n)] else Print(n / 10) + [DigitChar(n % 10)]
  }

  lemma {:induction false} PrintValue(n: nat)
    ensures Value(Print(n)) == n && (Print(n)[0] == '0' ==> n == 0)
  {
    if n < 10 {
      assert Value(Print(n)[..0]) == 0;
    } else {
      PrintValue(n / 10);
      assert Print(n)[..|Print(n)| - 1] == Print(n / 10);
    }
  }

  /** Without leading zeros a number has only one text. */
  lemma {:induction false} ValuePrint(s: string)
    requires AllDigits(s) && s != [] && (s[0] == '0' ==> |s| == 1)
    ensures Print(Value(s)) == s
  {
    var t, d := s[..|s| - 1], Digit(s[|s| - 1]);
    if |s| == 1 {
      assert Value(t) == 0;
    } else {
      ValuePrint(t);
      assert Print(0) == ['0'];
      assert Value(s) / 10 == Value(t) && Value(s) % 10 == d;
      assert s == t + [s[|s| - 1]];
    }
  }

  const LOWER := "0123456789abcdef"
  const UPPER := "0123456789ABCDEF"

  /** The digits are worth their places, and there are no others. */
  lemma DigitsAre(c: char)
    ensures forall d :: 0 <= d < 10 ==> DigitChar(d) == LOWER[d] && IsDigit(LOWER[d]) && Digit(LOWER[d]) == d
    ensures forall d :: 0 <= d < 16 ==>
      && IsDigit(LOWER[d], 16) && Digit(LOWER[d], 16) == d
      && IsDigit(UPPER[d], 16) && Digit(UPPER[d], 16) == d
    ensures IsDigit(c) ==> c in LOWER[..10]
    ensures IsDigit(c, 16) ==> c in LOWER || c in UPPER
  {
    if IsDigit(c) {
      assert LOWER[..10][c as int - '0' as int] == c;
    }
    if 'a' <= c <= 'f' {
      assert LOWER[c as int - 'a' as int + 10] == c;
    } else if IsDigit(c, 16) && c > '9' {
      assert UPPER[c as int - 'A' as int + 10] == c;
    } else if IsDigit(c, 16) {
      assert LOWER[c as int - '0' as int] == c;
    }
  }

  /** The hexadecimal text of n in the digits given. */
  function Hex(n: nat, digits: string): (s: string)
    requires |digits| == 16
    ensures s != []
  {
    if n < 16 then [digits[n]] else Hex(n / 16, digits) + [digits[n % 16]]
  }

  lemma {:induction false} HexValue(n: nat, digits: string)
    requires digits == LOWER || digits == UPPER
    ensures AllDigits(Hex(n, digits), 16) && Value(Hex(n, digits), 16) == n && (Hex(n, digits)[0] == '0' ==> n == 0)
  {
    DigitsAre('0');
    if n < 16 {
      assert Value(Hex(n, digits)[..0], 16) == 0;
    } else {
      HexValue(n / 16, digits);
      assert Hex(n, digits)[..|Hex(n, digits)| - 1] == Hex(n / 16, digits);
    }
  }

  /** The canonical text of an integer: no plus sign, no leading zeros, no minus zero. */
  function Text(n: int): (s: string) {
    if n < 0 then "-" + Print(-n) else Print(n)
  }
}
