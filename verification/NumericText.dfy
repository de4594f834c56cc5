/** What a numeric string is: a grammar, and a recognizer that reads from left to right. */
module NumericText {
  import opened Words
  import opened Numerals

  predicate IsSpace(c: char) {
    c in " \t\n\r" || c == 11 as char || c == 12 as char
  }

  predicate IsSign(c: char) {
    c == '-' || c == '+'
  }

  predicate IsE(c: char) {
    c == 'e' || c == 'E'
  }

  predicate IsX(c: char) {
    c == 'x' || c == 'X'
  }

  /** The characters that are neither digits nor the point. */
  lemma Characters(c: char)
    ensures IsSpace(c) <==> c as int in {9, 10, 11, 12, 13, 32}
    ensures IsSign(c) <==> c in "+-"
    ensures IsE(c) <==> c in "Ee"
    ensures IsX(c) <==> c in "Xx"
  {
  }

  predicate IsSignText(s: string) {
    s == [] || (|s| == 1 && IsSign(s[0]))
  }

  datatype Exponent = NoExponent | Exponent(e: char, sign: string, digits: string) {
    predicate WellFormed() {
      Exponent? ==> IsE(e) && IsSignText(sign) && digits != [] && AllDigits(digits)
    }

    function Text(): string {
      if NoExponent? then [] else [e] + (sign + digits)
    }
  }

  /** A number as it is written. */
  datatype Number =
    | Hex(x: char, digits: string)
    | Decimal(sign: string, whole: string, point: bool, fraction: string, exponent: Exponent)
  {
    predicate WellFormed() {
      match this
      case Hex(x, digits) => IsX(x) && digits != [] && AllDigits(digits, 16)
      case Decimal(sign, whole, point, fraction, exponent) =>
        && IsSignText(sign) && AllDigits(whole) && AllDigits(fraction) && exponent.WellFormed()
        && (if point then whole != [] || fraction != [] else whole != [] && fraction == [])
    }

    function Text(): string {
      match this
      case Hex(x, digits) => ['0', x] + digits
      case Decimal(sign, whole, point, fraction, exponent) => sign + Unsigned()
    }

    function Unsigned(): string
      requires Decimal?
    {
      whole + ((if point then "." + fraction else []) + exponent.Text())
    }

    predicate IsInteger() {
      Hex? || (!point && exponent.NoExponent?)
    }

    /** The integer written. */
    function Integer(): int
      requires WellFormed() && IsInteger()
    {
      match this
      case Hex(_, digits) => Value(digits, 16)
      case Decimal(sign, whole, _, _, _) => if sign == "-" then -(Value(whole) as int) else Value(whole)
    }
  }

  /** What follows the white space that text starts with. */
  function Body(text: string): string {
    if text != [] && IsSpace(text[0]) then Body(text[1..]) else text
  }

  /** text is n after white space. */
  ghost predicate Reads(text: string, n: Number) {
    n.WellFormed() && n.Text() == Body(text)
  }

  ghost predicate IsNumeric(text: string) {
    exists n :: Reads(text, n)
  }

  ghost predicate IsIntegerText(text: string) {
    exists n :: Reads(text, n) && n.IsInteger()
  }

  /** text is an integer that fits a long. */
  ghost predicate IsLongText(text: string, w: Width) {
    exists n :: Reads(text, n) && n.IsInteger() && w.Fits(n.Integer())
  }

  // ------------------------------------------------------------------ the recognizer

  function Unsign(b: string): string {
    if b != [] && IsSign(b[0]) then b[1..] else b
  }

  /** Reads what may follow a sign: dp is 0 before a point or exponent, 1 after a point, 2
      in an exponent. */
  predicate Accept(dp: nat, s: string)
    decreases |s|
  {
    if s == [] then true
    else if IsDigit(s[0]) then Accept(dp, s[1..])
    else if s[0] == '.' && dp < 1 then Accept(1, s[1..])
    else if IsE(s[0]) && dp < 2 then
      var t := Unsign(s[1..]);
      t != [] && IsDigit(t[0]) && Accept(2, t)
    else false
  }

  predicate IsHexBody(b: string) {
    |b| > 2 && b[0] == '0' && IsX(b[1]) && AllDigits(b[2..], 16)
  }

  predicate Starts(u: string) {
    u != [] && (IsDigit(u[0]) || (u[0] == '.' && |u| > 1 && IsDigit(u[1])))
  }

  predicate IsDecimalBody(b: string) {
    Starts(Unsign(b)) && Accept(0, Unsign(b))
  }

  predicate IsDecimalInteger(b: string) {
    Unsign(b) != [] && AllDigits(Unsign(b))
  }

  function BodyInteger(b: string): int
    requires IsHexBody(b) || IsDecimalInteger(b)
  {
    if IsHexBody(b) then Value(b[2..], 16)
    else if b[0] == '-' then -(Value(Unsign(b)) as int)
    else Value(Unsign(b))
  }

  lemma {:induction false} AcceptDigits(dp: nat, digits: string, rest: string)
    requires AllDigits(digits)
    ensures Accept(dp, digits + rest) == Accept(dp, rest)
  {
    if digits == [] {
      assert digits + rest == rest;
    } else {
      assert (digits + rest)[1..] == digits[1..] + rest;
      AcceptDigits(dp, digits[1..], rest);
    }
  }

  lemma AcceptExponent(dp: nat, x: Exponent)
    requires x.WellFormed() && dp < 2
    ensures Accept(dp, x.Text())
  {
    if x.Exponent? {
      assert x.Text()[1..] == x.sign + x.digits;
      assert Unsign(x.sign + x.digits) == x.digits;
      assert x.digits + [] == x.digits;
      AcceptDigits(2, x.digits, []);
    }
  }

  /** The grammar is accepted. */
  lemma GrammarAccepted(n: Number)
    requires n.WellFormed()
    ensures IsHexBody(n.Text()) <==> n.Hex?
    ensures IsHexBody(n.Text()) || IsDecimalBody(n.Text())
    ensures n.IsInteger() <==> IsHexBody(n.Text()) || IsDecimalInteger(n.Text())
    ensures n.IsInteger() ==> n.Integer() == BodyInteger(n.Text())
  {
    if n.Hex? {
      assert n.Text()[2..] == n.digits;
    } else {
      UnsignText(n);
      DecimalAccepted(n);
      DecimalInteger(n);
    }
  }

  lemma DecimalAccepted(n: Number)
    requires n.WellFormed() && n.Decimal?
    ensures Accept(0, n.Unsigned())
  {
    AcceptExponent(if n.point then 1 else 0, n.exponent);
    var text := n.exponent.Text();
    var rest := (if n.point then "." + n.fraction else []) + text;
    AcceptDigits(1, n.fraction, text);
    AcceptDigits(0, n.whole, rest);
    assert rest == if n.point then "." + (n.fraction + text) else text;
    assert n.point ==> rest[1..] == n.fraction + text;
  }

  lemma DecimalInteger(n: Number)
    requires n.WellFormed() && n.Decimal?
    ensures n.IsInteger() <==> AllDigits(n.Unsigned())
    ensures n.IsInteger() ==> n.Unsigned() == n.whole
  {
    var text := n.exponent.Text();
    var rest := (if n.point then "." + n.fraction else []) + text;
    assert rest != [] ==> rest[0] == if n.point then '.' else n.exponent.e;
    assert n.IsInteger() <==> rest == [];
    IntegerText(n.whole, rest);
  }

  lemma UnsignText(n: Number)
    requires n.WellFormed() && n.Decimal?
    ensures Unsign(n.Text()) == n.Unsigned() && Starts(n.Unsigned())
    ensures n.sign == "-" <==> n.Text()[0] == '-'
    ensures !IsHexBody(n.Text())
  {
    var u := n.Unsigned();
    UnsignedHead(n);
    hide Number.Unsigned, Starts;
    if n.sign == [] {
      assert n.Text() == u;
    } else {
      assert n.Text() == n.sign + u;
    }
  }

  lemma UnsignedHead(n: Number)
    requires n.WellFormed() && n.Decimal?
    ensures var u := n.Unsigned();
      Starts(u) && !IsSign(u[0]) && (|u| > 1 ==> !IsX(u[1])) && !IsX(u[0])
  {
    var u := n.Unsigned();
    if n.whole == [] {
      assert u[0] == '.' && u[1] == n.fraction[0];
    } else {
      assert u[0] == n.whole[0];
      if |n.whole| > 1 {
        assert u[1] == n.whole[1];
      } else if n.point {
        assert u[1] == '.';
      }
    }
  }

  lemma IntegerText(whole: string, rest: string)
    requires AllDigits(whole) && (rest != [] ==> !IsDigit(rest[0]))
    ensures AllDigits(whole + rest) <==> rest == []
  {
    if rest != [] {
      assert (whole + rest)[|whole|] == rest[0];
    }
  }

  function ParseExponent(s: string): (x: Exponent)
    requires s != [] && IsE(s[0])
    requires var t := Unsign(s[1..]); t != [] && AllDigits(t)
    ensures x.WellFormed() && x.Text() == s
  {
    var sign := if IsSign(s[1]) then [s[1]] else [];
    assert s == [s[0]] + (sign + Unsign(s[1..]));
    Exponent(s[0], sign, Unsign(s[1..]))
  }

  lemma {:induction false} InExponent(s: string)
    ensures Accept(2, s) <==> AllDigits(s)
    decreases |s|
  {
    if s != [] && IsDigit(s[0]) {
      InExponent(s[1..]);
      assert s == [s[0]] + s[1..];
    }
  }

  /** What comes after the digits that s starts with. */
  lemma AfterDigits(dp: nat, s: string) returns (digits: string, rest: string)
    requires Accept(dp, s)
    ensures s == digits + rest && AllDigits(digits) && Accept(dp, rest) && (rest != [] ==> !IsDigit(rest[0]))
    ensures rest != [] && IsE(rest[0]) && dp < 2 ==> Unsign(rest[1..]) != [] && AllDigits(Unsign(rest[1..]))
  {
    var k := DigitCount(s);
    digits, rest := s[..k], s[k..];
    assert s == digits + rest;
    AcceptDigits(dp, digits, rest);
    if rest != [] && IsE(rest[0]) && dp < 2 {
      InExponent(Unsign(rest[1..]));
    }
  }

  /** What is accepted is a number of the grammar. */
  lemma AcceptedGrammar(b: string) returns (n: Number)
    requires IsHexBody(b) || IsDecimalBody(b)
    ensures n.WellFormed() && n.Text() == b
  {
    if IsHexBody(b) {
      n := Hex(b[1], b[2..]);
    } else {
      var u := Unsign(b);
      var sign := if IsSign(b[0]) then [b[0]] else [];
      assert b == sign + u;
      var whole, rest := AfterDigits(0, u);
      n := Parsed(sign, whole, rest);
      assert Starts(whole + rest) && (whole == [] ==> rest[0] == '.' && IsDigit(rest[1]));
    }
  }

  lemma Parsed(sign: string, whole: string, rest: string) returns (n: Number)
    requires IsSignText(sign) && AllDigits(whole) && Accept(0, rest) && (rest != [] ==> !IsDigit(rest[0]))
    requires rest != [] && IsE(rest[0]) ==> Unsign(rest[1..]) != [] && AllDigits(Unsign(rest[1..]))
    requires whole == [] ==> |rest| > 1 && rest[0] == '.' && IsDigit(rest[1])
    ensures n.WellFormed() && n.Text() == sign + (whole + rest)
  {
    if rest == [] {
      n := Decimal(sign, whole, false, [], NoExponent);
    } else if rest[0] == '.' {
      var fraction, rest' := AfterDigits(1, rest[1..]);
      var x := if rest' == [] then NoExponent else ParseExponent(rest');
      n := Decimal(sign, whole, true, fraction, x);
      assert rest == ("." + fraction) + x.Text();
      assert whole == [] ==> (fraction + rest')[0] == rest[1];
    } else {
      var x := ParseExponent(rest);
      n := Decimal(sign, whole, false, [], x);
      assert rest == [] + x.Text();
    }
  }

  /** The recognizer decides the grammar. */
  lemma Recognized(text: string, w: Width)
    ensures IsNumeric(text) <==> IsHexBody(Body(text)) || IsDecimalBody(Body(text))
    ensures IsIntegerText(text) <==> IsHexBody(Body(text)) || IsDecimalInteger(Body(text))
    ensures IsLongText(text, w) <==>
      && (IsHexBody(Body(text)) || IsDecimalInteger(Body(text)))
      && w.Fits(BodyInteger(Body(text)))
    ensures IsIntegerText(text) ==>
      forall n :: Reads(text, n) ==> n.IsInteger() && n.Integer() == BodyInteger(Body(text))
  {
    var b := Body(text);
    forall n | Reads(text, n)
      ensures IsHexBody(b) || IsDecimalBody(b)
      ensures n.IsInteger() <==> IsHexBody(b) || IsDecimalInteger(b)
      ensures n.IsInteger() ==> n.Integer() == BodyInteger(b)
    {
      GrammarAccepted(n);
    }
    if IsDecimalInteger(b) {
      AcceptDigits(0, Unsign(b), []);
      assert Unsign(b) + [] == Unsign(b);
    }
    if IsHexBody(b) || IsDecimalBody(b) {
      var n := AcceptedGrammar(b);
      assert Reads(text, n);
    }
  }
}
