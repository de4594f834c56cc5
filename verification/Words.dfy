/** The two sizes of the machine's long, and its unsigned arithmetic. */
module Words {

  datatype Width = Bits32 | Bits64 {
    function Modulus(): (m: nat)
      ensures m > 0 && m == 2 * (Max() + 1)
    {
      if Bits32? then 0x1_0000_0000 else 0x1_0000_0000_0000_0000
    }

    /** LONG_MAX, LONG_MIN */
    function Max(): (m: nat) {
      if Bits32? then 0x7FFF_FFFF else 0x7FFF_FFFF_FFFF_FFFF
    }

    function Min(): (m: int) {
      -(Max() as int) - 1
    }

    predicate Fits(n: int) {
      Min() <= n <= Max()
    }

    /** SIZEOF_LONG */
    function Size(): nat {
      if Bits32? then 4 else 8
    }

    /** MAX_LENGTH_OF_LONG: room for the sign and the digits of LONG_MIN */
    function MaxLength(): nat {
      if Bits32? then 11 else 20
    }

    /** The value of n in an unsigned long. */
    function Unsigned(n: int): (u: nat)
      ensures u < Modulus()
    {
      n % Modulus()
    }

    /** The value in a long of the bits of the unsigned long u. */
    function Signed(u: nat): (n: int)
      requires u < Modulus()
      ensures Fits(n) && Unsigned(n) == u
    {
      var n := if u <= Max() then u else u - Modulus();
      Quotient(n, if u <= Max() then 0 else -1, u, Modulus());
      n
    }

    /** A long is told from its unsigned bits. */
    lemma UnsignedInjective(a: int, b: int)
      requires Fits(a) && Fits(b) && Unsigned(a) == Unsigned(b)
      ensures a == b
    {
      var m := Modulus();
      var qa, qb := a / m, b / m;
      if qa > qb {
        Grows(qa - qb, m);
      } else if qa < qb {
        Grows(qb - qa, m);
      }
      assert (qa - qb) * m == qa * m - qb * m == a - b;
      assert (qb - qa) * m == qb * m - qa * m == b - a;
    }
  }

  /** Quotient and remainder are unique. */
  lemma Quotient(x: int, q: int, r: int, m: nat)
    requires 0 <= r < m && x == q * m + r
    ensures x / m == q && x % m == r
  {
    var d := q - x / m;
    assert x == (x / m) * m + x % m;
    assert d * m == x % m - r by { assert d * m == q * m - (x / m) * m; }
    assert -d * m == -(d * m);
    if d >= 1 {
      Grows(d, m);
    } else if d <= -1 {
      Grows(-d, m);
    }
  }

  lemma Monotone(a: int, b: int, m: nat)
    requires a <= b
    ensures a * m <= b * m
  {
    assert b * m == a * m + (b - a) * m;
  }

  lemma Grows(k: int, m: nat)
    requires k >= 1
    ensures k * m >= m
  {
    assert k * m == m + (k - 1) * m;
  }
}
