/** is_numeric_string in its strict mode: the scanner, and what it says of a text. */
module NumericString {
  import opened Words
  import opened Numerals
  import opened NumericText

  const NUL: char := '\0'

  datatype Type = NotNumeric | IsLong | IsDouble

  // ------------------------------------------------------------------ what fits a long

  function LongMinDigits(w: Width): string {
    if w.Bits32? then "2147483648" else "9223372036854775808"
  }

  lemma LongMin(w: Width)
    ensures AllDigits(LongMinDigits(w)) && Value(LongMinDigits(w)) == w.Max() + 1
    ensures |LongMinDigits(w)| == w.MaxLength() - 1
  {
    if w.Bits32? {
      OneDigit('2');
      hide Value;
      ThreeMore("2", "147", "2147");
      ThreeMore("2147", "483", "2147483");
      ThreeMore("2147483", "648", "2147483648");
    } else {
      LongMinHead();
      hide Value;
      ThreeMore("9223372036", "854", "9223372036854");
      ThreeMore("9223372036854", "775", "9223372036854775");
      ThreeMore("9223372036854775", "808", "9223372036854775808");
    }
  }

  lemma LongMinHead()
    ensures Value("9223372036") == 9223372036
  {
    OneDigit('9');
    hide Value;
    ThreeMore("9", "223", "9223");
    ThreeMore("9223", "372", "9223372");
    ThreeMore("9223372", "036", "9223372036");
  }

  lemma OneDigit(c: char)
    requires IsDigit(c)
    ensures Value([c]) == Digit(c)
  {
    assert [c][..0] == [];
  }

  lemma ThreeMore(s: string, t: string, st: string)
    requires AllDigits(s) && AllDigits(t) && |t| == 3 && st == s + t
    ensures AllDigits(st)
    ensures Value(st) == 1000 * Value(s) + 100 * Digit(t[0]) + 10 * Digit(t[1]) + Digit(t[2])
  {
    Append(s, t[0]);
    Append(s + [t[0]], t[1]);
    Append(s + [t[0]] + [t[1]], t[2]);
    assert st == s + [t[0]] + [t[1]] + [t[2]];
  }

  /** strcmp */
  function StrCmp(a: string, b: string): int {
    if a == [] || b == [] then |a| - |b|
    else if a[0] != b[0] then a[0] as int - b[0] as int
    else StrCmp(a[1..], b[1..])
  }

  lemma {:induction false} ValueHead(s: string, base: Base := 10)
    requires AllDigits(s, base) && s != []
    ensures Value(s, base) == Digit(s[0], base) * Power(|s| - 1, base) + Value(s[1..], base)
  {
    var d, t := Digit(s[0], base), s[..|s| - 1];
    if |s| == 1 {
      assert Value(s[..0], base) == 0 && Value(s[1..], base) == 0;
    } else {
      ValueHead(t, base);
      Scale(base, d, Power(|s| - 2, base));
      assert s[1..][..|s| - 2] == t[1..];
    }
  }

  /** Texts of the same length compare as their numbers do. */
  lemma {:induction false} CompareDigits(a: string, b: string)
    requires |a| == |b| && AllDigits(a) && AllDigits(b)
    ensures StrCmp(a, b) < 0 <==> Value(a) < Value(b)
    ensures StrCmp(a, b) == 0 <==> Value(a) == Value(b)
  {
    if a != [] {
      if a[0] == b[0] {
        ValueHead(a);
        ValueHead(b);
        CompareDigits(a[1..], b[1..]);
      } else if a[0] < b[0] {
        LessHead(a, b);
      } else {
        LessHead(b, a);
      }
    }
  }

  lemma LessHead(a: string, b: string)
    requires |a| == |b| > 0 && AllDigits(a) && AllDigits(b) && a[0] < b[0]
    ensures Value(a) < Value(b)
  {
    Bounds(a);
    Bounds(b);
    Monotone(Digit(a[0]) + 1, Digit(b[0]), Power(|a| - 1));
  }

  lemma {:induction false} LeadingZeros(s: string, k: nat, base: Base)
    requires k <= |s| && AllDigits(s, base) && forall i :: 0 <= i < k ==> s[i] == '0'
    ensures Value(s, base) == Value(s[k..], base)
  {
    if k > 0 {
      ValueHead(s, base);
      LeadingZeros(s[1..], k - 1, base);
      assert s[1..][k - 1..] == s[k..];
    }
  }

  /** The decimal digits, without leading zeros, of a number that fits a long. */
  predicate DigitsFit(digits: string, negative: bool, w: Width) {
    || |digits| < w.MaxLength() - 1
    || (|digits| == w.MaxLength() - 1
        && (StrCmp(digits, LongMinDigits(w)) < 0 || (StrCmp(digits, LongMinDigits(w)) == 0 && negative)))
  }

  lemma DigitsFitLong(digits: string, negative: bool, w: Width)
    requires AllDigits(digits) && (digits != [] ==> digits[0] != '0')
    ensures DigitsFit(digits, negative, w) <==> w.Fits(if negative then -(Value(digits) as int) else Value(digits))
  {
    var n, max := |digits|, w.MaxLength() - 1;
    hide StrCmp;
    if n == max {
      LongMin(w);
      CompareDigits(digits, LongMinDigits(w));
      hide Value;
    } else if n > 0 {
      Powers();
      Bounds(digits);
      var d, p := Digit(digits[0]), Power(n - 1);
      assert n < max ==> 10 * p == Power(n);
      hide Value, Power;
      if n < max {
        PowerGrows(n, max - 1);
        Monotone(d + 1, 10, p);
      } else {
        PowerGrows(max, n - 1);
        Monotone(1, d, p);
      }
    }
  }

  predicate HexFits(digits: string, w: Width) {
    |digits| < 2 * w.Size() || (|digits| == 2 * w.Size() && digits[0] <= '7')
  }

  lemma HexFitsLong(digits: string, w: Width)
    requires AllDigits(digits, 16) && (digits != [] ==> digits[0] != '0')
    ensures HexFits(digits, w) <==> w.Fits(Value(digits, 16))
  {
    var n, max := |digits|, 2 * w.Size();
    HexPowers();
    if n > 0 {
      Bounds(digits, 16);
      var d, p := Digit(digits[0], 16), Power(n - 1, 16);
      hide Value, Power;
      if n < max {
        PowerGrows(n - 1, max - 2, 16);
        Monotone(d + 1, 16, p);
        SixteenLess(max);
      } else if n == max {
        if d <= 7 {
          Monotone(d + 1, 8, p);
        } else {
          Monotone(8, d, p);
        }
      } else {
        PowerGrows(max, n - 1, 16);
        Monotone(1, d, p);
      }
    }
  }

  lemma SixteenLess(n: nat)
    requires n > 1
    ensures 16 * Power(n - 2, 16) == Power(n - 1, 16)
  {
  }

  lemma HexPowers()
    ensures Power(7, 16) == 0x1000_0000 && Power(8, 16) == 0x1_0000_0000
    ensures Power(15, 16) == 0x1000_0000_0000_0000 && Power(16, 16) == 0x1_0000_0000_0000_0000
  {
    assert Power(4, 16) == 0x1_0000;
    assert Power(12, 16) == 0x1_0000_0000_0000;
  }

  function Clamp(n: int, w: Width): int {
    if n < w.Min() then w.Min() else if n > w.Max() then w.Max() else n
  }

  /** strtol: reads as many digits as there are, and saturates. */
  function StrToL(s: string, base: Base, w: Width): int {
    var t := Unsign(s);
    var u := if base == 16 && |t| > 2 && t[0] == '0' && IsX(t[1]) then t[2..] else t;
    var n := Value(u[..DigitCount(u, base)], base);
    Clamp(if s != [] && s[0] == '-' then -(n as int) else n, w)
  }

  /** strtol reads an integer that fits exactly. */
  lemma StrToLExact(b: string, base: Base, w: Width)
    requires if base == 16 then IsHexBody(b) else IsDecimalInteger(b) && !IsHexBody(b)
    requires w.Fits(BodyInteger(b))
    ensures StrToL(b, base, w) == BodyInteger(b)
  {
    var t := Unsign(b);
    var u := if base == 16 then t[2..] else t;
    assert u[..|u|] == u;
    assert DigitCount(u, base) == |u|;
  }

  // ------------------------------------------------------------------ the scanner

  /** Where the scanner goes next: the labels of the loop. */
  datatype Label = TestDigits | CheckDigits | DigitsEnd | ProcessDouble | Done

  /** The registers of the scanner. dp is its dp_or_e. */
  datatype Registers = Registers(next: Label, ptr: nat, digits: nat, dp: int, type_: Type)

  /** What does not change: the text and its length, the base, where the digits start, and
      if a double is wanted, where the conversions from it stop. */
  datatype Input = Input(mem: string, length: nat, base: Base, start: nat, dval: bool, decEnd: nat, hexEnd: nat, w: Width) {
    ghost predicate Valid() {
      start <= length < |mem| && mem[length] == NUL
    }

    function Rest(p: nat): string
      requires Valid() && p <= length
    {
      mem[p..length]
    }

    /** All that is left is digits. */
    ghost predicate AllLeft(p: nat)
      requires Valid() && p <= length
    {
      AllDigits(Rest(p), base)
    }

    ghost predicate Accepts(dp: nat, p: nat)
      requires Valid() && p <= length
    {
      if base == 10 then Accept(dp, Rest(p)) else AllLeft(p)
    }

    /** After the point, or the sign or e of an exponent, at p the rest is accepted. */
    ghost predicate AcceptsAfter(p: nat)
      requires Valid() && p < length
    {
      if mem[p] == '.' then Accepts(1, p + 1) else Accepts(2, p + 1)
    }

    lemma Next(dp: nat, p: nat)
      requires Valid() && p <= length && IsDigit(mem[p], base)
      ensures p < length && Accepts(dp, p) == Accepts(dp, p + 1) && AllLeft(p) == AllLeft(p + 1)
    {
      assert p < length;
      assert Rest(p)[1..] == Rest(p + 1);
      assert Rest(p) == [mem[p]] + Rest(p + 1);
    }

    /** No digit at p, nor a point or exponent that the recognizer takes. */
    lemma Stops(dp: nat, p: nat)
      requires Valid() && p <= length && !IsDigit(mem[p], base)
      requires base == 10 ==> !(mem[p] == '.' && dp < 1) && !(IsE(mem[p]) && dp < 2 && ExponentAt(p))
      ensures Accepts(dp, p) <==> p == length
      ensures AllLeft(p) <==> p == length
    {
      if p < length {
        assert Rest(p)[0] == mem[p];
        ExponentRest(p);
      }
    }

    /** At a point that the recognizer takes. */
    lemma Point(dp: nat, p: nat)
      requires Valid() && p <= length && base == 10 && mem[p] == '.' && dp < 1
      ensures p < length && !AllLeft(p) && (AcceptsAfter(p) <==> Accepts(dp, p))
    {
      assert p < length;
      assert Rest(p)[0] == mem[p] && Rest(p)[1..] == Rest(p + 1);
    }

    /** At an e that may start an exponent. */
    lemma AtE(dp: nat, p: nat)
      requires Valid() && p <= length && base == 10 && IsE(mem[p]) && dp < 2
      ensures p < length && !AllLeft(p) && (IsSign(mem[p + 1]) ==> p + 1 < length)
      ensures Accepts(dp, p) <==> ExponentAt(p) && AcceptsAfter(if IsSign(mem[p + 1]) then p + 1 else p)
    {
      assert p < length;
      assert Rest(p)[0] == mem[p];
      ExponentRest(p);
    }

    /** A digit follows the e at p, or the sign after it. */
    predicate ExponentAt(p: nat)
      requires Valid() && p < length
    {
      IsDigit(mem[if IsSign(mem[p + 1]) then p + 2 else p + 1])
    }

    lemma ExponentRest(p: nat)
      requires Valid() && p < length
      ensures var t := Unsign(Rest(p)[1..]);
        t == Rest(if p + 1 < length && IsSign(mem[p + 1]) then p + 2 else p + 1)
    {
    }

    /** The text is an integer from start on; fromPoint says it starts with a point. */
    ghost predicate Whole(fromPoint: bool)
      requires Valid()
    {
      !fromPoint && AllLeft(start)
    }

    ghost predicate Many(digits: nat) {
      digits >= w.MaxLength()
    }

    ghost predicate Scanning(r: Registers, fromPoint: bool)
      requires Valid()
    {
      && start <= r.ptr <= length && r.digits <= r.ptr - start && 0 <= r.dp <= 2
      && r.type_ == (if r.dp == 0 then IsLong else IsDouble)
      && (r.dp > 0 ==> !dval && base == 10)
      && (Whole(fromPoint) ==> r.dp == 0) && (fromPoint ==> r.dp != 0)
    }

    /** Before a digit is looked for. */
    ghost predicate AtDigits(r: Registers, fromPoint: bool)
      requires Valid()
    {
      && Scanning(r, fromPoint)
      && (Accepts(r.dp, r.ptr) <==> Accepts(0, start))
      && (r.dp == 0 ==> r.digits == r.ptr - start && (AllLeft(r.ptr) <==> AllLeft(start)))
    }

    /** Behind the digits, or after as many as settle that a double is wanted. */
    ghost predicate AtEnd(r: Registers, fromPoint: bool)
      requires Valid()
    {
      && Scanning(r, fromPoint)
      && ((Many(r.digits) && dval) || (r.ptr == length <==> Accepts(0, start)))
      && (r.dp == 0 && !(Many(r.digits) && dval) ==> (r.ptr == length <==> AllLeft(start)))
      && (r.dp == 0 && (base == 16 || r.ptr == length) ==> r.digits == r.ptr - start)
      && (Whole(fromPoint) && !(Many(r.digits) && dval) ==> r.ptr == length)
    }

    ghost predicate AtDouble(r: Registers, fromPoint: bool)
      requires Valid()
    {
      && base == 10 && start <= r.ptr <= length && r.digits <= r.ptr - start && -1 <= r.dp <= 1
      && (r.dp == -1 ==> Many(r.digits) && (dval || (r.ptr == length <==> Accepts(0, start))))
      && (r.dp >= 0 ==> r.ptr < length && !Whole(fromPoint) && (AcceptsAfter(r.ptr) <==> Accepts(0, start)))
    }

    ghost predicate AtDone(r: Registers, fromPoint: bool)
      requires Valid()
    {
      && r.type_ != NotNumeric
      && (!dval ==> (r.ptr == length <==> Accepts(0, start)))
      && (r.type_ == IsLong ==>
            && !fromPoint && (r.ptr == length <==> AllLeft(start))
            && (r.ptr == length <==> Accepts(0, start))
            && (r.ptr == length ==> r.digits == length - start && Fits()))
      && (r.type_ == IsDouble && dval ==> r.ptr == if base == 10 then decEnd else hexEnd)
      && (r.type_ == IsDouble && Whole(fromPoint) ==> !Fits())
    }

    /** As far as the scanner looks, an integer fits a long. */
    ghost predicate Fits()
      requires Valid()
    {
      if base == 10 then !Many(length - start) else HexFits(Rest(start), w)
    }

    ghost predicate Good(r: Registers, fromPoint: bool)
      requires Valid()
    {
      match r.next
      case TestDigits => AtDigits(r, fromPoint)
      case CheckDigits => AtDigits(r, fromPoint) && !(Many(r.digits) && dval)
      case DigitsEnd => AtEnd(r, fromPoint)
      case ProcessDouble => AtDouble(r, fromPoint)
      case Done => AtDone(r, fromPoint)
    }
  }

  method Test(i: Input, r: Registers, ghost fromPoint: bool) returns (r': Registers)
    requires i.Valid() && i.Good(r, fromPoint) && r.next == TestDigits
    ensures i.Good(r', fromPoint) && r'.ptr == r.ptr && r'.next in {CheckDigits, DigitsEnd}
  {
    hide Accept, AllDigits;
    r' := r.(next := if r.digits >= i.w.MaxLength() && i.dval then DigitsEnd else CheckDigits);
  }

  method Check(i: Input, r: Registers, ghost fromPoint: bool) returns (r': Registers)
    requires i.Valid() && i.Good(r, fromPoint) && r.next == CheckDigits
    ensures i.Good(r', fromPoint)
    ensures if r'.next == TestDigits then r'.ptr > r.ptr else r'.next in {DigitsEnd, ProcessDouble} && r'.ptr >= r.ptr
  {
    hide Accept, AllDigits, Input.Accepts, Input.AllLeft, Input.AcceptsAfter;
    var ptr := r.ptr;
    if IsDigit(i.mem[ptr], i.base) {
      i.Next(r.dp, ptr);
      return r.(next := TestDigits, digits := r.digits + 1, ptr := ptr + 1);
    } else if i.base == 10 {
      if i.mem[ptr] == '.' && r.dp < 1 {
        i.Point(r.dp, ptr);
        return r.(next := ProcessDouble);
      } else if IsE(i.mem[ptr]) && r.dp < 2 {
        i.AtE(r.dp, ptr);
        var e := ptr + 1;
        if IsSign(i.mem[e]) {
          ptr := e;
          e := e + 1;
        }
        if IsDigit(i.mem[e]) {
          return r.(next := ProcessDouble, ptr := ptr);
        }
        return r.(next := DigitsEnd, ptr := ptr);
      }
    }
    i.Stops(r.dp, ptr);
    r' := r.(next := DigitsEnd);
  }

  method End(i: Input, r: Registers, ghost fromPoint: bool) returns (r': Registers)
    requires i.Valid() && i.Good(r, fromPoint) && r.next == DigitsEnd
    ensures i.Good(r', fromPoint) && (r'.next == Done || (r'.next == ProcessDouble && r'.ptr == r.ptr))
  {
    r' := r.(next := Done);
    if i.base == 10 {
      if r.digits >= i.w.MaxLength() {
        r' := r.(next := ProcessDouble, dp := -1);
      }
    } else if !(r.digits < i.w.Size() * 2 || (r.digits == i.w.Size() * 2 && i.mem[r.ptr - r.digits] <= '7')) {
      if i.dval {
        r' := r'.(ptr := i.hexEnd);
      }
      r' := r'.(type_ := IsDouble);
    }
  }

  method Double(i: Input, r: Registers, ghost fromPoint: bool) returns (r': Registers)
    requires i.Valid() && i.Good(r, fromPoint) && r.next == ProcessDouble
    ensures i.Good(r', fromPoint) && (r'.next == Done || (r'.next == CheckDigits && r'.ptr > r.ptr))
  {
    r' := r.(type_ := IsDouble, next := Done);
    if i.dval {
      r' := r'.(ptr := i.decEnd);
    } else if r.dp != -1 {
      r' := r'.(dp := if i.mem[r.ptr] == '.' then 1 else 2, ptr := r.ptr + 1, next := CheckDigits);
    }
  }

  /** The loop, entered at the digits or at the point that the number starts with. */
  method Scan(i: Input, fromPoint: bool) returns (r: Registers)
    requires i.Valid() && (fromPoint ==> i.base == 10 && i.start < i.length && i.mem[i.start] == '.')
    ensures i.AtDone(r, fromPoint)
  {
    r := Registers(if fromPoint then ProcessDouble else TestDigits, i.start, 0, 0, IsLong);
    hide *;
    while r.next != Done
      invariant i.Good(r, fromPoint)
      decreases if r.next == Done then 0 else 1 + i.length - r.ptr,
        match r.next case TestDigits => 3 case CheckDigits => 2 case DigitsEnd => 1 case _ => 0
    {
      match r.next
      case TestDigits => r := Test(i, r, fromPoint);
      case CheckDigits => r := Check(i, r, fromPoint);
      case DigitsEnd => r := End(i, r, fromPoint);
      case ProcessDouble => r := Double(i, r, fromPoint);
    }
  }

  // ------------------------------------------------------------------ the function

  lemma {:induction false} BodyAfter(text: string, k: nat)
    requires k <= |text| && (forall j :: 0 <= j < k ==> IsSpace(text[j])) && (k < |text| ==> !IsSpace(text[k]))
    ensures Body(text) == text[k..]
  {
    if k > 0 {
      BodyAfter(text[1..], k - 1);
      assert text[1..][k - 1..] == text[k..];
    }
  }

  method SkipSpace(mem: string, length: nat) returns (str: nat)
    requires length < |mem| && mem[length] == NUL
    ensures str <= length && mem[str..length] == Body(mem[..length])
  {
    str := 0;
    while IsSpace(mem[str])
      invariant str <= length && forall j :: 0 <= j < str ==> IsSpace(mem[j])
      decreases length - str
    {
      str := str + 1;
    }
    BodyAfter(mem[..length], str);
    assert mem[..length][str..] == mem[str..length];
  }

  method SkipZeros(mem: string, length: nat, from: nat) returns (p: nat)
    requires from <= length < |mem| && mem[length] == NUL
    ensures from <= p <= length && mem[p] != '0' && forall j :: from <= j < p ==> mem[j] == '0'
  {
    p := from;
    while mem[p] == '0'
      invariant from <= p <= length && forall j :: from <= j < p ==> mem[j] == '0'
      decreases length - p
    {
      p := p + 1;
    }
  }

  /** Zeros from p to q make no difference. */
  lemma Zeros(mem: string, p: nat, q: nat, length: nat, base: Base)
    requires p <= q <= length <= |mem| && forall j :: p <= j < q ==> mem[j] == '0'
    ensures Accept(0, mem[p..length]) == Accept(0, mem[q..length])
    ensures AllDigits(mem[p..length], base) <==> AllDigits(mem[q..length], base)
    ensures AllDigits(mem[p..length], base) ==> Value(mem[p..length], base) == Value(mem[q..length], base)
  {
    var s, t := mem[p..length], mem[q..length];
    assert s == mem[p..q] + t;
    AcceptDigits(0, mem[p..q], t);
    if AllDigits(t, base) {
      LeadingZeros(s, q - p, base);
    }
    assert AllDigits(s, base) ==> AllDigits(t, base) by {
      assert forall k :: 0 <= k < |t| ==> t[k] == s[k + (q - p)];
    }
  }

  /** The scanner is set up for the body b of a text. */
  ghost predicate Prepared(i: Input, b: string, fromPoint: bool) {
    && i.Valid()
    && (fromPoint ==> i.base == 10 && i.start < i.length && i.mem[i.start] == '.')
    && (i.Accepts(0, i.start) <==> IsHexBody(b) || IsDecimalBody(b))
    && (i.Whole(fromPoint) <==> IsHexBody(b) || IsDecimalInteger(b))
    && (if i.base == 10 then !IsHexBody(b) else !IsNegative(b) && !IsDecimalInteger(b))
    && i.mem[i.start] != '0'
    && (i.Whole(fromPoint) ==> BodyInteger(b) == Signed(Value(i.Rest(i.start), i.base), IsNegative(b)))
  }

  /** What is read as a hexadecimal number. */
  predicate StartsHex(b: string) {
    |b| > 2 && b[0] == '0' && IsX(b[1])
  }

  predicate IsNegative(b: string) {
    b != [] && b[0] == '-'
  }

  function Signed(n: nat, negative: bool): int {
    if negative then -(n as int) else n
  }

  /** Behind the zeros at start, the digits are worth what they are from p on. */
  ghost predicate SameFrom(i: Input, p: nat)
    requires i.Valid() && p <= i.start
  {
    && Accept(0, i.Rest(p)) == Accept(0, i.Rest(i.start))
    && (i.AllLeft(p) <==> i.AllLeft(i.start))
    && (i.AllLeft(p) ==> Value(i.Rest(p), i.base) == Value(i.Rest(i.start), i.base))
  }

  lemma HexPrepared(i: Input, b: string, p: nat)
    requires i.Valid() && p <= i.start && i.mem[i.start] != '0' && SameFrom(i, p)
    requires i.base == 16 && |b| > 2 && b[0] == '0' && IsX(b[1]) && b[2..] == i.Rest(p)
    ensures Prepared(i, b, false)
  {
    hide Value;
    assert b[1..][0] == b[1] && !IsDigit(b[1]);
    assert Unsign(b) == b;
    assert !Accept(0, b[1..]) && !Accept(0, b);
    assert !IsDecimalInteger(b);
    hide Accept;
  }

  lemma DecimalPrepared(i: Input, b: string, p: nat)
    requires i.Valid() && p <= i.start && i.mem[i.start] != '0' && SameFrom(i, p)
    requires i.base == 10 && !IsHexBody(b) && b != [] && Unsign(b) == i.Rest(p) && p < i.length && IsDigit(i.mem[p])
    ensures Prepared(i, b, false)
  {
    hide Value, Accept;
  }

  /** Where the number starts with a digit, at i.start: finds the base and skips zeros. */
  method PrepareDigits(i: Input, str: nat) returns (i': Input)
    requires i.Valid() && i.base == 10 && str <= i.start && IsDigit(i.mem[i.start])
    requires i.start == if IsSign(i.mem[str]) then str + 1 else str
    ensures i' == i.(base := i'.base, start := i'.start) && Prepared(i', i.mem[str..i.length], false)
    ensures i'.base == 16 <==> StartsHex(i.mem[str..i.length])
  {
    ghost var b := i.mem[str..i.length];
    if i.length - str > 2 && i.mem[str] == '0' && IsX(i.mem[str + 1]) {
      HexFrom(i, str);
      hide *;
      i' := StartBehindZeros(i.(base := 16), i.start + 2);
      HexPrepared(i', b, i.start + 2);
    } else {
      DecimalFrom(i, str);
      hide *;
      i' := StartBehindZeros(i, i.start);
      DecimalPrepared(i', b, i.start);
    }
  }

  method StartBehindZeros(i: Input, p: nat) returns (i': Input)
    requires i.Valid() && p <= i.length
    ensures i' == i.(start := i'.start) && i'.Valid() && p <= i'.start && i'.mem[i'.start] != '0' && SameFrom(i', p)
  {
    var start := SkipZeros(i.mem, i.length, p);
    Zeros(i.mem, p, start, i.length, i.base);
    hide Value, Accept, AllDigits;
    i' := i.(start := start);
  }

  lemma HexFrom(i: Input, str: nat)
    requires i.Valid() && i.length - str > 2 && i.start == str && i.mem[str] == '0' && IsX(i.mem[str + 1])
    ensures i.(base := 16).Valid() && i.start + 2 <= i.length
    ensures var b := i.mem[str..i.length];
      |b| > 2 && b[0] == '0' && IsX(b[1]) && b[2..] == i.(base := 16).Rest(i.start + 2)
  {
  }

  lemma DecimalFrom(i: Input, str: nat)
    requires i.Valid() && i.base == 10 && str <= i.start && IsDigit(i.mem[i.start])
    requires i.start == if IsSign(i.mem[str]) then str + 1 else str
    requires !(i.length - str > 2 && i.mem[str] == '0' && IsX(i.mem[str + 1]))
    ensures i.start < i.length
    ensures var b := i.mem[str..i.length];
      !IsHexBody(b) && b != [] && Unsign(b) == i.Rest(i.start)
  {
  }

  method Prepare(mem: string, length: nat, str: nat, dval: bool, decEnd: nat, hexEnd: nat, w: Width)
    returns (numeric: bool, i: Input, fromPoint: bool)
    requires str <= length < |mem| && mem[length] == NUL
    ensures i.mem == mem && i.length == length && i.dval == dval && i.decEnd == decEnd && i.hexEnd == hexEnd && i.w == w
    ensures numeric ==> Prepared(i, mem[str..length], fromPoint)
    ensures numeric <==> Starts(Unsign(mem[str..length]))
    ensures numeric ==> (i.base == 16 <==> StartsHex(mem[str..length]))
    ensures !numeric ==>
      var b := mem[str..length];
      !IsHexBody(b) && !IsDecimalBody(b) && !IsDecimalInteger(b)
  {
    ghost var b := mem[str..length];
    var ptr := if IsSign(mem[str]) then str + 1 else str;
    assert Unsign(b) == mem[ptr..length];
    numeric, fromPoint := true, false;
    i := Input(mem, length, 10, ptr, dval, decEnd, hexEnd, w);
    if IsDigit(mem[ptr]) {
      i := PrepareDigits(i, str);
    } else if mem[ptr] == '.' && IsDigit(mem[ptr + 1]) {
      fromPoint := true;
      assert mem[ptr..length][0] == '.';
    } else {
      numeric := false;
      assert !Starts(Unsign(b));
    }
  }

  lemma IntegerIsDecimal(b: string)
    ensures IsDecimalInteger(b) ==> IsDecimalBody(b)
  {
    if IsDecimalInteger(b) {
      AcceptDigits(0, Unsign(b), []);
      assert Unsign(b) + [] == Unsign(b);
    }
  }

  lemma WholeFits(i: Input, b: string, fromPoint: bool)
    requires Prepared(i, b, fromPoint) && i.Whole(fromPoint)
    ensures i.base == 10 ==> (DigitsFit(i.Rest(i.start), IsNegative(b), i.w) <==> i.w.Fits(BodyInteger(b)))
    ensures i.base == 16 ==> (HexFits(i.Rest(i.start), i.w) <==> i.w.Fits(BodyInteger(b)))
    ensures i.w.Fits(BodyInteger(b)) ==> i.Fits() && StrToL(b, i.base, i.w) == BodyInteger(b)
  {
    hide Value, StrToL, StrCmp;
    if i.base == 10 {
      DigitsFitLong(i.Rest(i.start), IsNegative(b), i.w);
    } else {
      HexFitsLong(i.Rest(i.start), i.w);
    }
    if i.w.Fits(BodyInteger(b)) {
      StrToLExact(b, i.base, i.w);
    }
  }

  /** is_numeric_string with allow_errors 0. decEnd and hexEnd are where zend_strtod and
      zend_hex_strtod stop, used only if the value of a double is asked for. */
  method IsNumericString(mem: string, length: nat, dval: bool, decEnd: nat, hexEnd: nat, w: Width)
    returns (type_: Type, lval: int)
    requires length < |mem| && mem[length] == NUL
    ensures !dval ==> (type_ != NotNumeric <==> IsNumeric(mem[..length]))
    ensures type_ == IsLong <==> IsLongText(mem[..length], w)
    ensures type_ == IsLong ==> forall n :: Reads(mem[..length], n) ==> n.IsInteger() && lval == n.Integer()
    ensures IsNumeric(mem[..length]) && !IsLongText(mem[..length], w) && (dval ==> decEnd == hexEnd == length) ==>
      type_ == IsDouble
    ensures dval && type_ == IsDouble ==>
      || (IsIntegerText(mem[..length]) && !IsLongText(mem[..length], w))
      || (if StartsHex(Body(mem[..length])) then hexEnd else decEnd) == length
    ensures dval && IsNumeric(mem[..length]) && !IsIntegerText(mem[..length]) ==>
      type_ == if decEnd == length then IsDouble else NotNumeric
    ensures (decEnd == length <==> IsDecimalBody(Body(mem[..length]))) && (hexEnd == length <==> IsHexBody(Body(mem[..length]))) ==>
      (type_ != NotNumeric <==> IsNumeric(mem[..length]))
  {
    Recognized(mem[..length], w);
    HexApart(Body(mem[..length]));
    if length == 0 {
      NothingRead(mem[..length]);
      return NotNumeric, 0;
    }
    hide *;
    var str := SkipSpace(mem, length);
    type_, lval := Classify(mem, length, str, dval, decEnd, hexEnd, w);
  }

  lemma HexApart(b: string)
    ensures IsHexBody(b) ==> StartsHex(b)
    ensures StartsHex(b) ==> !IsDecimalBody(b) && !IsDecimalInteger(b)
  {
    if StartsHex(b) {
      assert Unsign(b) == b && b[1..][0] == b[1] && !IsDigit(b[1]);
      assert !Accept(0, b[1..]) && !Accept(0, b);
    }
  }

  lemma NothingRead(text: string)
    requires text == []
    ensures !IsHexBody(Body(text)) && !IsDecimalBody(Body(text)) && !IsDecimalInteger(Body(text))
  {
    hide Value, Accept;
  }

  method Classify(mem: string, length: nat, str: nat, dval: bool, decEnd: nat, hexEnd: nat, w: Width)
    returns (type_: Type, lval: int)
    requires str <= length < |mem| && mem[length] == NUL
    ensures var b := mem[str..length];
      && (!dval ==> (type_ != NotNumeric <==> IsHexBody(b) || IsDecimalBody(b)))
      && (type_ == IsLong <==> (IsHexBody(b) || IsDecimalInteger(b)) && w.Fits(BodyInteger(b)))
      && (type_ == IsLong ==> lval == BodyInteger(b))
      && (type_ != NotNumeric ==> Starts(Unsign(b)))
      && ((dval ==> decEnd == hexEnd == length) && (IsHexBody(b) || IsDecimalBody(b)) ==> type_ != NotNumeric)
      && (dval && type_ == IsDouble ==>
            || ((IsHexBody(b) || IsDecimalInteger(b)) && !w.Fits(BodyInteger(b)))
            || (if StartsHex(b) then hexEnd else decEnd) == length)
      && (dval && IsDecimalBody(b) && !IsDecimalInteger(b) && !StartsHex(b) ==>
            type_ == if decEnd == length then IsDouble else NotNumeric)
      && ((decEnd == length <==> IsDecimalBody(b)) && (hexEnd == length <==> IsHexBody(b)) ==>
            (type_ != NotNumeric <==> IsHexBody(b) || IsDecimalBody(b)))
  {
    hide Value, Accept, AllDigits, StrCmp, StrToL, IsHexBody, IsDecimalBody, IsDecimalInteger, BodyInteger;
    var numeric, i, fromPoint := Prepare(mem, length, str, dval, decEnd, hexEnd, w);
    if !numeric {
      return NotNumeric, 0;
    }
    var r := Scan(i, fromPoint);
    IntegerIsDecimal(mem[str..length]);
    if i.Whole(fromPoint) {
      WholeFits(i, mem[str..length], fromPoint);
    }
    if r.ptr != length {
      return NotNumeric, 0;
    }
    if r.type_ == IsLong {
      if r.digits == w.MaxLength() - 1 {
        var cmp := StrCmp(mem[r.ptr - r.digits..length], LongMinDigits(w));
        if !(cmp < 0 || (cmp == 0 && mem[str] == '-')) {
          return IsDouble, 0;
        }
      }
      lval := StrToL(mem[str..length], i.base, w);
      return IsLong, lval;
    }
    return IsDouble, 0;
  }
}
