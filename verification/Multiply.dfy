/** Multiplication of longs with overflow to a double: the form in floating point, and the
    form in a wider integer.

    All values of the floating-point form are integers, so a float is modelled as the
    integer it is, and rounding as any function that gives a nearest float. */
module Multiply {
  import opened Words

  function Pow2(n: nat): (p: int)
    ensures p > 0
  {
    if n == 0 then 1 else 2 * Pow2(n - 1)
  }

  ghost predicate IsScaled(x: int, p: nat, m: int, e: nat) {
    x == m * Pow2(e) && -Pow2(p) < m < Pow2(p)
  }

  /** x is a float with p significand bits. */
  ghost predicate IsFloat(x: int, p: nat) {
    exists m, e: nat :: IsScaled(x, p, m, e)
  }

  function Distance(x: int, y: int): nat {
    if x < y then y - x else x - y
  }

  /** round gives a float nearest to its argument, whichever way ties go. */
  ghost predicate RoundsToNearest(round: int -> int, p: nat) {
    && (forall x :: IsFloat(round(x), p))
    && (forall x, y :: IsFloat(y, p) ==> Distance(round(x), x) <= Distance(y, x))
  }

  datatype Product = Long(lval: int) | Double(dval: int)

  /** a * b in a long, wrapping. */
  function Wrapped(a: int, b: int, w: Width): (lres: int)
    ensures w.Fits(lres) && w.Unsigned(lres) == w.Unsigned(a * b)
  {
    w.Signed(w.Unsigned(a * b))
  }

  /** ZEND_SIGNED_MULTIPLY_LONG in long double: every conversion and operation rounds. */
  function SignedMultiply(a: int, b: int, round: int -> int, w: Width): Product {
    var lres := Wrapped(a, b, w);
    var dres := round(round(a) * round(b));
    var delta := round(round(lres) - dres);
    if round(dres + delta) != dres then Double(dres) else Long(lres)
  }

  /** ZEND_SIGNED_MULTIPLY_LONG in a long of twice the width. */
  function WidenedMultiply(a: int, b: int, w: Width): Product {
    var result := a * b;
    if result > w.Max() || result < w.Min() then Double(result) else Long(result)
  }

  // ------------------------------------------------------------------ floats

  lemma {:induction false} Pow2Sum(a: nat, b: nat)
    ensures Pow2(a + b) == Pow2(a) * Pow2(b)
  {
    if b > 0 {
      Pow2Sum(a, b - 1);
      assert Pow2(a) * (2 * Pow2(b - 1)) == 2 * (Pow2(a) * Pow2(b - 1));
    }
  }

  lemma NegativeFloat(x: int, p: nat)
    requires IsFloat(x, p)
    ensures IsFloat(-x, p)
  {
    var m, e: nat :| IsScaled(x, p, m, e);
    assert -m * Pow2(e) == -(m * Pow2(e));
    assert IsScaled(-x, p, -m, e);
  }

  lemma PowerFloat(k: nat, p: nat)
    requires p > 0
    ensures IsFloat(Pow2(k), p)
  {
    assert Pow2(p) == 2 * Pow2(p - 1);
    assert IsScaled(Pow2(k), p, 1, k);
  }

  lemma SmallFloat(x: int, p: nat)
    requires -Pow2(p) <= x <= Pow2(p) && p > 0
    ensures IsFloat(x, p)
  {
    if x == Pow2(p) || x == -Pow2(p) {
      PowerFloat(p, p);
      NegativeFloat(Pow2(p), p);
    } else {
      assert IsScaled(x, p, x, 0);
    }
  }

  /** Both halves of a float are floats. */
  lemma HalfFloat(x: nat, p: nat)
    requires IsFloat(x, p)
    ensures IsFloat(x / 2, p) && IsFloat(x - x / 2, p)
  {
    var m, e: nat :| IsScaled(x, p, m, e);
    if e == 0 {
      assert IsScaled(x / 2, p, x / 2, 0) && IsScaled(x - x / 2, p, x - x / 2, 0);
    } else {
      Halves(x, m, Pow2(e - 1));
      assert IsScaled(x / 2, p, m, e - 1);
    }
  }

  lemma Halves(x: int, m: int, q: int)
    requires x == m * (2 * q)
    ensures x / 2 == x - x / 2 == m * q
  {
    assert x == 2 * (m * q);
  }

  lemma DoubleFloat(x: int, p: nat)
    requires IsFloat(x, p)
    ensures IsFloat(2 * x, p)
  {
    var m, e: nat :| IsScaled(x, p, m, e);
    assert m * (2 * Pow2(e)) == 2 * (m * Pow2(e));
    assert IsScaled(2 * x, p, m, e + 1);
  }

  /** The difference of two floats within a factor of two is a float. */
  lemma CloseDifference(x: int, y: int, p: nat)
    requires IsFloat(x, p) && IsFloat(y, p) && 0 < y < x <= 2 * y
    ensures IsFloat(x - y, p)
  {
    var m, e: nat :| IsScaled(x, p, m, e);
    var n, f: nat :| IsScaled(y, p, n, f);
    if e < f {
      Pow2Sum(f - e, e);
      Reassociate(n, Pow2(f - e), Pow2(e));
      ScaledDifference(x, y, p, m, n * Pow2(f - e), e);
    } else {
      Pow2Sum(e - f, f);
      Reassociate(m, Pow2(e - f), Pow2(f));
      ScaledDifference(x, y, p, m * Pow2(e - f), n, f);
    }
  }

  lemma Reassociate(a: int, b: int, c: int)
    ensures a * (b * c) == a * b * c
  {
  }

  /** On the smaller of two scales: one of the factors is small. */
  lemma ScaledDifference(x: int, y: int, p: nat, m: int, n: int, g: nat)
    requires 0 < y < x <= 2 * y && x == m * Pow2(g) && y == n * Pow2(g)
    requires m < Pow2(p) || n < Pow2(p)
    ensures IsFloat(x - y, p)
  {
    var q := Pow2(g);
    assert (m - n) * q == x - y && 0 * q == 0;
    Factor(m - n, n, q);
    Factor(0, n, q);
    Factor(0, m - n, q);
    assert IsScaled(x - y, p, m - n, g);
  }

  lemma Factor(a: int, b: int, q: nat)
    requires q > 0 && a * q <= b * q
    ensures a <= b
  {
    assert (b + 1) * q == b * q + q;
    if a > b {
      Monotone(b + 1, a, q);
    }
  }

  // ------------------------------------------------------------------ rounding

  lemma RoundBelow(round: int -> int, p: nat, x: int, y: int)
    requires RoundsToNearest(round, p) && IsFloat(y, p) && x <= y
    ensures round(x) <= y
  {
    assert Distance(round(x), x) <= Distance(y, x);
  }

  lemma RoundAbove(round: int -> int, p: nat, x: int, y: int)
    requires RoundsToNearest(round, p) && IsFloat(y, p) && x >= y
    ensures round(x) >= y
  {
    assert Distance(round(x), x) <= Distance(y, x);
  }

  lemma RoundFloat(round: int -> int, p: nat, x: int)
    requires RoundsToNearest(round, p) && IsFloat(x, p)
    ensures round(x) == x
  {
    assert Distance(round(x), x) <= Distance(x, x);
  }

  /** A float from l up to below d whose distance from d is a float. */
  lemma Between(l: int, d: int, p: nat) returns (z: int)
    requires IsFloat(l, p) && IsFloat(d, p) && l < d
    ensures l <= z < d && IsFloat(z, p) && IsFloat(d - z, p)
  {
    NegativeFloat(l, p);
    NegativeFloat(d, p);
    if d > 0 && 2 * l < d {
      z := d / 2;
      HalfFloat(d, p);
    } else if d > 0 {
      z := l;
      CloseDifference(d, l, p);
    } else if d < 0 && l <= 2 * d {
      z := 2 * d;
      DoubleFloat(d, p);
    } else if d < 0 {
      z := l;
      CloseDifference(-l, -d, p);
    } else {
      z := l;
    }
  }

  lemma SumBelow(round: int -> int, p: nat, l: int, d: int)
    requires RoundsToNearest(round, p) && IsFloat(l, p) && IsFloat(d, p) && l < d
    ensures round(d + round(l - d)) < d
  {
    var z := Between(l, d, p);
    NegativeFloat(d - z, p);
    RoundBelow(round, p, l - d, z - d);
    RoundBelow(round, p, d + round(l - d), z);
  }

  lemma SumAbove(round: int -> int, p: nat, l: int, d: int)
    requires RoundsToNearest(round, p) && IsFloat(l, p) && IsFloat(d, p) && l > d
    ensures round(d + round(l - d)) > d
  {
    NegativeFloat(l, p);
    NegativeFloat(d, p);
    var z := Between(-l, -d, p);
    NegativeFloat(z, p);
    RoundAbove(round, p, l - d, -d - z);
    RoundAbove(round, p, d + round(l - d), -z);
  }

  lemma RoundIsFloat(round: int -> int, p: nat, x: int)
    requires RoundsToNearest(round, p)
    ensures IsFloat(round(x), p)
  {
  }

  /** `dres + (lres - dres) != dres`, rounded twice, still tells whether they differ. */
  lemma SumTellsDifference(round: int -> int, p: nat, l: int, d: int)
    requires RoundsToNearest(round, p) && IsFloat(l, p) && IsFloat(d, p)
    ensures round(d + round(l - d)) == d <==> l == d
  {
    if l < d {
      SumBelow(round, p, l, d);
    } else if l > d {
      SumAbove(round, p, l, d);
    } else {
      assert IsScaled(0, p, 0, 0);
      hide RoundsToNearest;
      RoundFloat(round, p, 0);
      RoundFloat(round, p, d);
    }
  }

  lemma RoundedDiffer(round: int -> int, p: nat, x: int, y: int)
    requires RoundsToNearest(round, p)
    ensures var l, d := round(x), round(y); round(d + round(l - d)) == d <==> l == d
  {
    assert IsFloat(round(x), p) && IsFloat(round(y), p);
    hide IsFloat;
    SumTellsDifference(round, p, round(x), round(y));
  }

  // ------------------------------------------------------------------ the product

  /** The double is used exactly when the two rounded products differ, however the
      conversions round. */
  lemma UsedIff(a: int, b: int, round: int -> int, p: nat, w: Width)
    requires RoundsToNearest(round, p)
    ensures SignedMultiply(a, b, round, w).Double? <==> round(Wrapped(a, b, w)) != round(round(a) * round(b))
  {
    hide RoundsToNearest, Wrapped;
    RoundedDiffer(round, p, Wrapped(a, b, w), round(a) * round(b));
  }

  /** The overflow is seen: no float with the sign of a product that does not fit, and more
      than half as large, is the wrapped product rounded. */
  lemma OverflowApart(a: int, b: int, d: int, round: int -> int, p: nat, w: Width)
    requires RoundsToNearest(round, p) && p > 0 && !w.Fits(a * b)
    requires if a * b > 0 then 2 * d > a * b else 2 * d < a * b
    ensures round(Wrapped(a, b, w)) != d
  {
    var x, lres, half := a * b, Wrapped(a, b, w), w.Max() + 1;
    ZeroAndHalf(p, w);
    if x > 0 {
      if lres <= 0 {
        RoundBelow(round, p, lres, 0);
      } else {
        WrapDistance(lres, x, w);
        RoundBelow(round, p, lres, half);
      }
    } else if lres >= 0 {
      RoundAbove(round, p, lres, 0);
    } else {
      WrapDistance(x, lres, w);
      RoundAbove(round, p, lres, -half);
    }
  }

  lemma ZeroAndHalf(p: nat, w: Width)
    requires p > 0
    ensures IsFloat(0, p) && IsFloat(w.Max() + 1, p) && IsFloat(-((w.Max() + 1) as int), p)
  {
    var bits := if w.Bits32? then 31 else 63;
    Powers();
    SmallFloat(0, p);
    PowerFloat(bits, p);
    NegativeFloat(Pow2(bits), p);
  }

  lemma Powers()
    ensures Pow2(31) == 0x8000_0000 && Pow2(63) == 0x8000_0000_0000_0000
    ensures Pow2(53) == 0x20_0000_0000_0000 && Pow2(4) == 16
  {
    assert Pow2(3) == 8 && Pow2(4) == 16 && Pow2(5) == 32;
    Pow2Sum(4, 4);
    Pow2Sum(8, 8);
    Pow2Sum(16, 16);
    Pow2Sum(32, 16);
    Pow2Sum(48, 5);
    assert Pow2(32) == 2 * Pow2(31);
    Pow2Sum(32, 31);
  }

  lemma WrapDistance(x: int, y: int, w: Width)
    requires x < y && w.Unsigned(x) == w.Unsigned(y)
    ensures x <= y - w.Modulus()
  {
    var m := w.Modulus();
    assert x == x / m * m + x % m && y == y / m * m + y % m;
    assert (y / m - x / m) * m == y - x;
    Factor(1, y / m - x / m, m) by { NotLess(y / m - x / m, m); }
  }

  lemma NotLess(k: int, m: nat)
    requires k * m > 0
    ensures 1 * m <= k * m
  {
    if k <= 0 {
      Monotone(k, 0, m);
    } else {
      Grows(k, m);
    }
  }

  // ------------------------------------------------------------------ when the test is right

  /** The k leading bits of x. */
  lemma {:induction false} Leading(x: nat, k: nat) returns (q: nat, e: nat)
    requires k > 0
    ensures q < Pow2(k) && (e > 0 ==> q >= Pow2(k - 1))
    ensures q * Pow2(e) <= x < (q + 1) * Pow2(e)
    decreases x
  {
    if x < Pow2(k) {
      q, e := x, 0;
    } else {
      var e';
      q, e' := Leading(x / 2, k);
      e := e' + 1;
      Doubled(x, q, Pow2(e'));
      if e' == 0 {
        assert Pow2(0) == 1 && q == x / 2 && Pow2(k) == 2 * Pow2(k - 1);
      }
    }
  }

  lemma Doubled(x: nat, q: nat, m: int)
    requires q * m <= x / 2 < (q + 1) * m
    ensures q * (2 * m) <= x < (q + 1) * (2 * m)
  {
    assert q * (2 * m) == 2 * (q * m) && (q + 1) * (2 * m) == 2 * ((q + 1) * m);
  }

  /** Rounding keeps the sign, and more than half of the size of any number, seven eighths
      if there are four bits. */
  lemma RoundKeeps(round: int -> int, p: nat, x: nat)
    requires RoundsToNearest(round, p) && p > 0
    ensures round(x) >= 0 && (x > 0 ==> 2 * round(x) > x) && (p >= 4 ==> 8 * round(x) >= 7 * x)
  {
    SmallFloat(0, p);
    RoundAbove(round, p, x, 0);
    var k := if p >= 4 then 4 else 1;
    var q, e := Leading(x, k);
    assert Pow2(1) == 2 && Pow2(3) == 8;
    Pow2Sum(k, p - k);
    Monotone(1, Pow2(p - k), Pow2(k));
    assert IsScaled(q * Pow2(e), p, q, e);
    RoundAbove(round, p, x, q * Pow2(e));
    KeepsFrom(x, q, Pow2(e), round(x));
  }

  lemma KeepsFrom(x: nat, q: nat, m: nat, r: int)
    requires q * m <= x < (q + 1) * m && q * m <= r && m > 0
    requires q >= 1 || m == 1
    ensures x > 0 ==> 2 * r > x
    ensures q >= 7 || m == 1 ==> 8 * r >= 7 * x
  {
    assert (q + 1) * m == q * m + m;
    if q >= 1 {
      Monotone(1, q, m);
    }
    if q >= 7 {
      Monotone(7, q, m);
    }
  }

  lemma RoundKeepsNegative(round: int -> int, p: nat, x: int)
    requires RoundsToNearest(round, p) && p > 0 && x < 0
    ensures round(x) <= 0 && 2 * round(x) < x && (p >= 4 ==> 8 * round(x) <= 7 * x)
  {
    SmallFloat(0, p);
    RoundBelow(round, p, x, 0);
    var k := if p >= 4 then 4 else 1;
    var q, e := Leading(-x, k);
    assert Pow2(1) == 2 && Pow2(3) == 8;
    Pow2Sum(k, p - k);
    Monotone(1, Pow2(p - k), Pow2(k));
    assert IsScaled(q * Pow2(e), p, q, e);
    NegativeFloat(q * Pow2(e), p);
    RoundBelow(round, p, x, -(q * Pow2(e)));
    KeepsFrom(-x, q, Pow2(e), -round(x));
  }

  /** Seven eighths of each factor, of whatever sign, are 49/64 of the product. */
  lemma ProductKeeps(a: nat, b: nat, x: nat, y: nat)
    requires 8 * x >= 7 * a && 8 * y >= 7 * b
    ensures 64 * (x * y) >= 49 * (a * b)
  {
    Monotone(7 * a, 8 * x, 8 * y);
    Monotone(7 * b, 8 * y, 7 * a);
    assert 8 * x * (8 * y) == 64 * (x * y) && 7 * b * (7 * a) == 49 * (a * b);
  }

  ghost predicate Keeps(x: int, r: int) {
    if x >= 0 then r >= 0 && 8 * r >= 7 * x else r <= 0 && 8 * r <= 7 * x
  }

  lemma AlwaysKeeps(round: int -> int, p: nat, x: int)
    requires RoundsToNearest(round, p) && p >= 4
    ensures Keeps(x, round(x))
  {
    if x >= 0 {
      RoundKeeps(round, p, x);
    } else {
      RoundKeepsNegative(round, p, x);
    }
  }

  lemma KeptProduct(a: int, b: int, x: int, y: int, d: int)
    requires Keeps(a, x) && Keeps(b, y) && Keeps(x * y, d) && a * b != 0
    ensures if a * b > 0 then 2 * d > a * b else 2 * d < a * b
  {
    ProductKeeps(Distance(a, 0), Distance(b, 0), Distance(x, 0), Distance(y, 0));
    Magnitude(a, b);
    Magnitude(x, y);
    Sign(a, b);
    Sign(x, y);
    KeptNumbers(a, b, x, y, a * b, x * y, d);
  }

  lemma KeptNumbers(a: int, b: int, x: int, y: int, ab: int, xy: int, d: int)
    requires Keeps(a, x) && Keeps(b, y) && Keeps(xy, d) && ab != 0
    requires 64 * Distance(xy, 0) >= 49 * Distance(ab, 0)
    requires ab > 0 <==> (a > 0 && b > 0) || (a < 0 && b < 0)
    requires ab < 0 <==> (a > 0 && b < 0) || (a < 0 && b > 0)
    requires xy > 0 <==> (x > 0 && y > 0) || (x < 0 && y < 0)
    requires xy < 0 <==> (x > 0 && y < 0) || (x < 0 && y > 0)
    ensures if ab > 0 then 2 * d > ab else 2 * d < ab
  {
  }

  lemma Sign(a: int, b: int)
    ensures a * b > 0 <==> (a > 0 && b > 0) || (a < 0 && b < 0)
    ensures a * b < 0 <==> (a > 0 && b < 0) || (a < 0 && b > 0)
  {
  }

  lemma Magnitude(a: int, b: int)
    ensures Distance(a, 0) * Distance(b, 0) == Distance(a * b, 0)
  {
    Sign(a, b);
  }

  /** An overflow is never missed, however the conversions round. */
  lemma OverflowNeverMissed(a: int, b: int, round: int -> int, p: nat, w: Width)
    requires RoundsToNearest(round, p) && p >= 4 && !w.Fits(a * b)
    ensures SignedMultiply(a, b, round, w).Double?
  {
    UsedIff(a, b, round, p, w);
    AlwaysKeeps(round, p, a);
    AlwaysKeeps(round, p, b);
    AlwaysKeeps(round, p, round(a) * round(b));
    KeptProduct(a, b, round(a), round(b), round(round(a) * round(b)));
    OverflowApart(a, b, round(round(a) * round(b)), round, p, w);
  }

  /** The test is right exactly when a product that fits is rounded to the same float
      whether its operands were rounded first or not. */
  lemma RightIff(a: int, b: int, round: int -> int, p: nat, w: Width)
    requires RoundsToNearest(round, p) && p >= 4
    ensures (SignedMultiply(a, b, round, w).Double? <==> !w.Fits(a * b))
      <==> (w.Fits(a * b) ==> round(a * b) == round(round(a) * round(b)))
  {
    hide RoundsToNearest, SignedMultiply, Wrapped;
    if w.Fits(a * b) {
      UsedIff(a, b, round, p, w);
      w.UnsignedInjective(Wrapped(a, b, w), a * b);
    } else {
      OverflowNeverMissed(a, b, round, p, w);
    }
  }

  /** So it is right for operands that are floats themselves, whatever becomes of the
      wrapped product. */
  lemma RightForFloats(a: int, b: int, round: int -> int, p: nat, w: Width)
    requires RoundsToNearest(round, p) && p >= 4 && IsFloat(a, p) && IsFloat(b, p)
    ensures SignedMultiply(a, b, round, w).Double? <==> !w.Fits(a * b)
  {
    RoundFloat(round, p, a);
    RoundFloat(round, p, b);
    hide RoundsToNearest, SignedMultiply;
    RightIff(a, b, round, p, w);
  }

  /** With exact conversions of the operands the long is used exactly for the products that
      fit, and the double is the product rounded. */
  lemma ExactMultiply(a: int, b: int, round: int -> int, p: nat, w: Width)
    requires RoundsToNearest(round, p) && p > 0 && round(a) == a && round(b) == b
    ensures SignedMultiply(a, b, round, w) == if w.Fits(a * b) then Long(a * b) else Double(round(a * b))
  {
    hide Wrapped;
    UsedIff(a, b, round, p, w);
    if w.Fits(a * b) {
      w.UnsignedInjective(Wrapped(a, b, w), a * b);
    } else {
      if a * b > 0 {
        RoundKeeps(round, p, a * b);
      } else {
        RoundKeepsNegative(round, p, a * b);
      }
      OverflowApart(a, b, round(a * b), round, p, w);
    }
  }

  /** Conversions are exact if the significand has a bit for each but the sign. */
  lemma ConversionExact(x: int, round: int -> int, p: nat, w: Width)
    requires RoundsToNearest(round, p) && w.Fits(x) && p >= (if w.Bits32? then 31 else 63)
    ensures round(x) == x
  {
    var bits := if w.Bits32? then 31 else 63;
    Powers();
    Pow2Sum(bits, p - bits);
    Monotone(1, Pow2(p - bits), Pow2(bits));
    SmallFloat(x, p);
    RoundFloat(round, p, x);
  }

  /** So on a machine whose long double has that many, for all longs, the form in floating
      point decides and computes as the form in a wider integer does. */
  lemma AgreesWithWidened(a: int, b: int, round: int -> int, p: nat, w: Width)
    requires RoundsToNearest(round, p) && w.Fits(a) && w.Fits(b) && p >= (if w.Bits32? then 31 else 63)
    ensures SignedMultiply(a, b, round, w).Double? <==> !w.Fits(a * b)
    ensures w.Fits(a * b) ==> SignedMultiply(a, b, round, w) == WidenedMultiply(a, b, w)
    ensures !w.Fits(a * b) ==> SignedMultiply(a, b, round, w).dval == round(WidenedMultiply(a, b, w).dval)
  {
    hide RoundsToNearest, Wrapped, SignedMultiply;
    ConversionExact(a, round, p, w);
    ConversionExact(b, round, p, w);
    ExactMultiply(a, b, round, p, w);
  }

  /** A float of 53 bits that is at least 2^55 is a multiple of 8. */
  lemma Coarse(x: int)
    requires IsFloat(x, 53) && x >= 0x80_0000_0000_0000
    ensures x % 8 == 0
  {
    var m, e: nat :| IsScaled(x, 53, m, e);
    Powers();
    assert Pow2(0) == 1 && Pow2(1) == 2 && Pow2(2) == 4 && Pow2(3) == 8;
    assert e == 0 || e == 1 || e == 2 ==> m * Pow2(e) <= 4 * m || m < 0;
    Factor(0, m, Pow2(e)) by { assert 0 * Pow2(e) == 0; }
    Pow2Sum(e - 3, 3);
    Reassociate(m, Pow2(e - 3), 8);
  }

  /** Where a long double has 53 bits, as a double has, the conversions round and the test
      takes some products that fit for overflows. */
  lemma RoundedConversionFails(round: int -> int)
    requires RoundsToNearest(round, 53)
    ensures var a := 0x80_0000_0000_0003; var b := 3;
      Bits64.Fits(a * b) && SignedMultiply(a, b, round, Bits64).Double?
  {
    var a, b := 0x80_0000_0000_0003, 3;
    RoundsApart(round);
    Bits64.UnsignedInjective(Wrapped(a, b, Bits64), a * b);
    hide RoundsToNearest, IsFloat, SignedMultiply, Wrapped;
    UsedIff(a, b, round, 53, Bits64);
  }

  /** Three times 2^55 + 3, rounded before or after. */
  lemma RoundsApart(round: int -> int)
    requires RoundsToNearest(round, 53)
    ensures var a := 0x80_0000_0000_0003;
      round(round(a) * round(3)) == 3 * 0x80_0000_0000_0000 != round(a * 3)
  {
    var a, near := 0x80_0000_0000_0003, 0x80_0000_0000_0000;
    Floats();
    Nearer(round, 53, a, near);
    RoundIsFloat(round, 53, a);
    Coarse(round(a));
    RoundFloat(round, 53, 3);
    RoundFloat(round, 53, 3 * near);
    Nearer(round, 53, a * 3, 3 * near + 16);
  }

  lemma Nearer(round: int -> int, p: nat, x: int, y: int)
    requires RoundsToNearest(round, p) && IsFloat(y, p)
    ensures Distance(round(x), x) <= Distance(y, x)
  {
  }

  lemma Floats()
    ensures var near := 0x80_0000_0000_0000;
      IsFloat(3, 53) && IsFloat(near, 53) && IsFloat(3 * near, 53) && IsFloat(3 * near + 16, 53)
  {
    var near := 0x80_0000_0000_0000;
    Powers();
    Pow2Sum(53, 2);
    assert Pow2(2) == 4;
    SmallFloat(3, 53);
    PowerFloat(55, 53);
    assert IsScaled(3 * near, 53, 3, 55);
    assert IsScaled(3 * near + 16, 53, 0x18_0000_0000_0001, 4);
  }
}
