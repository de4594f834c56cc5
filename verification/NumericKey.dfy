/** Which string keys of an array are really integer keys. A key is given with the NUL that
    ends it. */
module NumericKey {
  import opened Words
  import opened Numerals

  const NUL: char := '\0'

  /** key is the canonical text of n. */
  predicate Prints(key: string, n: int) {
    key == Text(n) + [NUL]
  }

  /** key is the canonical text of an integer. */
  predicate Canonical(key: string) {
    && key != [] && key[|key| - 1] == NUL
    && var digits := Digits(key); digits != [] && AllDigits(digits) && (digits[0] == '0' ==> key == "0\0")
  }

  function Digits(key: string): string
    requires key != []
  {
    if key[0] == '-' && |key| > 1 then key[1..|key| - 1] else key[..|key| - 1]
  }

  /** The integer whose text key is. */
  function Number(key: string): int
    requires Canonical(key)
  {
    if key[0] == '-' then -(Value(Digits(key)) as int) else Value(Digits(key))
  }

  lemma CanonicalPrints(key: string)
    requires Canonical(key)
    ensures Prints(key, Number(key))
  {
    var digits := Digits(key);
    ValuePrint(digits);
    NonZero(digits);
    hide Value, Print;
    if key[0] == '-' {
      assert key == "-" + digits + [NUL];
    } else {
      assert key == digits + [NUL];
    }
  }

  lemma PrintsCanonical(key: string, n: int)
    requires Prints(key, n)
    ensures Canonical(key) && Number(key) == n
  {
    var m := if n < 0 then -n else n;
    PrintValue(m);
    if n < 0 {
      assert Digits(key) == Print(m);
    } else {
      assert IsDigit(key[0]) && Digits(key) == Print(m);
      assert m == 0 ==> Print(m) == "0";
    }
  }

  /** ZEND_HANDLE_NUMERIC for the key of that length at the start of mem: whether it takes
      the path of integer keys, and with which index. It takes it for exactly the texts of
      the numbers that fit a long. The digits read never overflow the accumulator. */
  method HandleNumeric(mem: string, length: nat, w: Width) returns (numeric: bool, idx: nat)
    requires 1 <= length <= |mem| && (mem[0] == '-' ==> |mem| > 1)
    ensures numeric <==> exists n :: Prints(mem[..length], n) && w.Fits(n)
    ensures numeric ==> forall n :: Prints(mem[..length], n) ==> idx == w.Unsigned(n)
  {
    ghost var key := mem[..length];
    numeric, idx := Scan(mem, length, w);
    if Canonical(key) {
      CanonicalPrints(key);
    }
    forall n | Prints(key, n) ensures Canonical(key) && Number(key) == n {
      PrintsCanonical(key, n);
    }
  }

  predicate TooLong(digits: string, w: Width) {
    || |digits| > w.MaxLength() - 1
    || (w.Size() == 4 && |digits| == w.MaxLength() - 1 && digits[0] > '2')
  }

  lemma TooLongOverflows(digits: string, w: Width)
    requires AllDigits(digits) && digits != [] && digits[0] != '0' && TooLong(digits, w)
    ensures Value(digits) > w.Max() + 1
  {
    Powers();
    Bounds(digits);
    var d, p := Digit(digits[0]), Power(|digits| - 1);
    PowerGrows(if w.Bits32? then 9 else 19, |digits| - 1);
    if |digits| > 10 {
      PowerGrows(10, |digits| - 1);
    }
    hide Value, Power;
    Monotone(if d >= 3 then 3 else 1, d, p);
  }

  lemma NotTooLongFits(digits: string, w: Width)
    requires AllDigits(digits) && digits != [] && !TooLong(digits, w)
    ensures Value(digits) < w.Modulus()
  {
    Powers();
    Bounds(digits);
    var d, p := Digit(digits[0]), Power(|digits| - 1);
    PowerGrows(|digits| - 1, if w.Bits64? then 18 else if |digits| < 10 then 8 else 9);
    assert Power(9) == 10 * Power(8);
    hide Value, Power;
    Monotone(d + 1, if d < 3 then 3 else 10, p);
  }

  lemma PrefixNotTooLong(digits: string, n: nat, w: Width)
    requires 0 < n <= |digits| && !TooLong(digits, w)
    ensures !TooLong(digits[..n], w)
  {
  }

  /** The accumulator holds the digits so far, and takes one more without wrapping. */
  lemma Accumulates(mem: string, start: nat, tmp: nat, end: nat, w: Width)
    requires start < tmp < end <= |mem| && AllDigits(mem[start..tmp]) && IsDigit(mem[tmp]) && !TooLong(mem[start..end], w)
    ensures AllDigits(mem[start..tmp + 1]) && w.Unsigned(10 * Value(mem[start..tmp]) + Digit(mem[tmp])) == Value(mem[start..tmp + 1])
    ensures 10 * Value(mem[start..tmp]) + Digit(mem[tmp]) == Value(mem[start..tmp + 1]) < w.Modulus()
  {
    assert mem[start..tmp + 1] == mem[start..tmp] + [mem[tmp]];
    Append(mem[start..tmp], mem[tmp]);
    assert mem[start..end][..tmp + 1 - start] == mem[start..tmp + 1];
    PrefixNotTooLong(mem[start..end], tmp + 1 - start, w);
    NotTooLongFits(mem[start..tmp + 1], w);
  }

  lemma NonZero(digits: string)
    requires AllDigits(digits) && digits != []
    ensures digits[0] != '0' ==> Value(digits) > 0
  {
    Bounds(digits);
    if digits[0] != '0' {
      Grows(Digit(digits[0]), Power(|digits| - 1));
    }
    hide Value;
  }

  /** `(ulong)(-(long)idx)` and the test before it. */
  lemma Negated(idx: nat, w: Width)
    requires idx < w.Modulus()
    ensures idx > 0 ==> w.Unsigned(idx - 1) == idx - 1
    ensures idx <= w.Max() + 1 ==> w.Unsigned(-w.Signed(idx)) == w.Unsigned(-(idx as int))
    ensures w.Unsigned(idx) == idx
  {
    var m := w.Modulus();
    if idx == w.Max() + 1 {
      w.UnsignedInjective(w.Signed(idx), w.Min());
    }
  }

  lemma KeyDigits(mem: string, length: nat)
    requires 1 <= length <= |mem| && (mem[0] == '-' ==> length > 1)
    ensures Digits(mem[..length]) == mem[if mem[0] == '-' then 1 else 0..length - 1]
  {
  }

  method Scan(mem: string, length: nat, w: Width) returns (numeric: bool, idx: nat)
    requires 1 <= length <= |mem| && (mem[0] == '-' ==> |mem| > 1)
    ensures numeric <==> Canonical(mem[..length]) && w.Fits(Number(mem[..length]))
    ensures numeric ==> idx == w.Unsigned(Number(mem[..length]))
  {
    ghost var key := mem[..length];
    var tmp := 0;
    numeric, idx := false, 0;
    hide Value;
    if mem[tmp] == '-' {
      tmp := tmp + 1;
    }
    if !IsDigit(mem[tmp]) {
      return;
    }
    var end := length - 1;
    if mem[end] != NUL || (mem[tmp] == '0' && length > 2) {
      return;
    }
    ghost var digits := mem[tmp..end];
    KeyDigits(mem, length);
    if end - tmp > w.MaxLength() - 1 || (w.Size() == 4 && end - tmp == w.MaxLength() - 1 && mem[tmp] > '2') {
      if AllDigits(digits) {
        TooLongOverflows(digits, w);
      }
      return;
    }
    numeric, idx := Accumulate(mem, tmp, end, w);
    if numeric {
      NonZero(digits);
      Negated(idx, w);
      hide Value, Width.Signed;
      if mem[0] == '-' {
        if w.Unsigned(idx - 1) > w.Max() {
          numeric := false;
        }
        idx := w.Unsigned(-w.Signed(idx));
      } else if idx > w.Max() {
        numeric := false;
      }
    }
  }

  lemma OneDigit(mem: string, start: nat, w: Width)
    requires start < |mem| && IsDigit(mem[start])
    ensures AllDigits(mem[start..start + 1]) && Value(mem[start..start + 1]) == Digit(mem[start]) < w.Modulus()
  {
    assert mem[start..start + 1] == [] + [mem[start]];
    Append([], mem[start]);
  }

  method Accumulate(mem: string, start: nat, end: nat, w: Width) returns (numeric: bool, idx: nat)
    requires start < end <= |mem| && IsDigit(mem[start]) && !TooLong(mem[start..end], w)
    ensures numeric <==> AllDigits(mem[start..end])
    ensures numeric ==> idx == Value(mem[start..end]) < w.Modulus()
  {
    var tmp := start + 1;
    idx := Digit(mem[start]);
    OneDigit(mem, start, w);
    hide *;
    while tmp != end && IsDigit(mem[tmp])
      invariant start < tmp <= end && AllDigits(mem[start..tmp])
      invariant idx == Value(mem[start..tmp]) < w.Modulus()
    {
      Accumulates(mem, start, tmp, end, w);
      idx := w.Unsigned(idx * 10 + Digit(mem[tmp]));
      tmp := tmp + 1;
    }
    numeric := tmp == end;
    if !numeric {
      NotAll(mem, start, tmp, end);
    }
  }

  lemma NotAll(mem: string, start: nat, tmp: nat, end: nat)
    requires start <= tmp < end <= |mem| && !IsDigit(mem[tmp])
    ensures !AllDigits(mem[start..end])
  {
    assert mem[start..end][tmp - start] == mem[tmp];
  }
}
