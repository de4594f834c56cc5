/** The string hash: 33 * hash + character, eight characters at a time. */
module Hash {
  import opened Words

  /** The characters of a key are signed. */
  type SignedChar = c: int | -128 <= c < 128

  const START := 5381

  /** What the hash is for the first n characters of key. */
  function Hashed(key: seq<SignedChar>, n: nat, w: Width): (h: nat)
    requires n <= |key|
    ensures h < w.Modulus()
  {
    if n == 0 then START
    else (33 * Hashed(key, n - 1, w) + key[n - 1]) % w.Modulus()
  }

  /** `hash = ((hash << 5) + hash) + *arKey++`, each operation on unsigned longs. */
  method Absorb(hash: nat, key: seq<SignedChar>, p: nat, w: Width) returns (hash': nat, p': nat)
    requires p < |key| && hash == Hashed(key, p, w)
    ensures p' == p + 1 && hash' == Hashed(key, p', w)
  {
    p' := p + 1;
    hash' := w.Unsigned(w.Unsigned(w.Unsigned(hash * 32) + hash) + w.Unsigned(key[p]));
    Wraps(hash * 32, hash, key[p], w.Modulus());
  }

  lemma Wraps(a: int, b: int, c: int, m: nat)
    requires m > 0
    ensures ((a % m + b) % m + c % m) % m == (a + b + c) % m
  {
    var q, r, s := (a % m + b) / m, a / m, c / m;
    Shifted(a, r, m);
    Shifted(a % m + b, q, m);
    Shifted(c, s, m);
    assert (a % m + b) % m + c % m + (q + r + s) * m == a + b + c;
    Unwrap((a % m + b) % m + c % m, q + r + s, m);
  }

  lemma Shifted(a: int, q: int, m: nat)
    requires m > 0 && q == a / m
    ensures a == a % m + q * m
  {
  }

  lemma Unwrap(a: int, k: int, m: nat)
    requires m > 0
    ensures (a + k * m) % m == a % m
  {
    assert (a / m + k) * m == a / m * m + k * m;
    Quotient(a + k * m, a / m + k, a % m, m);
  }

  /** zend_inline_hash_func: unrolled eight times, with a tail that falls through. */
  method HashFunc(key: seq<SignedChar>, w: Width) returns (hash: nat)
    ensures hash == Hashed(key, |key|, w)
  {
    hash := START;
    var p, length := 0, |key|;
    while length >= 8
      invariant 0 <= length && p + length == |key| && hash == Hashed(key, p, w)
    {
      hash, p := Absorb(hash, key, p, w);
      hash, p := Absorb(hash, key, p, w);
      hash, p := Absorb(hash, key, p, w);
      hash, p := Absorb(hash, key, p, w);
      hash, p := Absorb(hash, key, p, w);
      hash, p := Absorb(hash, key, p, w);
      hash, p := Absorb(hash, key, p, w);
      hash, p := Absorb(hash, key, p, w);
      length := length - 8;
    }
    if length >= 7 { hash, p := Absorb(hash, key, p, w); }
    if length >= 6 { hash, p := Absorb(hash, key, p, w); }
    if length >= 5 { hash, p := Absorb(hash, key, p, w); }
    if length >= 4 { hash, p := Absorb(hash, key, p, w); }
    if length >= 3 { hash, p := Absorb(hash, key, p, w); }
    if length >= 2 { hash, p := Absorb(hash, key, p, w); }
    if length >= 1 { hash, p := Absorb(hash, key, p, w); }
  }

  function Power(b: nat, n: nat): nat {
    if n == 0 then 1 else b * Power(b, n - 1)
  }

  /** The sum of key[i] * b^(n-1-i) over i < k. */
  function Sum(key: seq<SignedChar>, b: nat, n: nat, k: nat): int
    requires k <= n <= |key|
  {
    if k == 0 then 0 else Sum(key, b, n, k - 1) + key[k - 1] * Power(b, n - k)
  }

  lemma {:induction false} SumNext(key: seq<SignedChar>, b: nat, n: nat, k: nat)
    requires k <= n < |key|
    ensures Sum(key, b, n + 1, k) == b * Sum(key, b, n, k)
  {
    if k > 0 {
      SumNext(key, b, n, k - 1);
      var c, p := key[k - 1], Power(b, n - k);
      assert Power(b, n + 1 - k) == b * p;
      assert c * (b * p) == b * (c * p);
      assert b * (Sum(key, b, n, k - 1) + c * p) == b * Sum(key, b, n, k - 1) + b * (c * p);
    } else {
      assert b * 0 == 0;
    }
  }

  /** The hash in closed form. */
  lemma {:induction false} ClosedForm(key: seq<SignedChar>, n: nat, w: Width)
    requires n <= |key|
    ensures Hashed(key, n, w) == (5381 * Power(33, n) + Sum(key, 33, n, n)) % w.Modulus()
  {
    if n > 0 {
      var m, h, c := w.Modulus(), Hashed(key, n - 1, w), key[n - 1];
      ClosedForm(key, n - 1, w);
      SumNext(key, 33, n - 1, n - 1);
      var x := 5381 * Power(33, n - 1) + Sum(key, 33, n - 1, n - 1);
      Unwrap(33 * h + c, 33 * (x / m), m);
      assert 33 * h + c + 33 * (x / m) * m == 33 * x + c;
      assert Power(33, 0) == 1;
    }
  }
}
