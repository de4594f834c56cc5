/** Substring search. Positions are offsets into the haystack. */
module Search {

  datatype Position = Null | At(pos: nat)

  predicate Occurs(needle: string, haystack: string, p: nat) {
    p + |needle| <= |haystack| && haystack[p..p + |needle|] == needle
  }

  /** r is the least position from on where the needle occurs, Null if there is none. */
  ghost predicate First(r: Position, needle: string, haystack: string, from: nat) {
    match r
    case Null => forall q: nat :: from <= q ==> !Occurs(needle, haystack, q)
    case At(p) => from <= p && Occurs(needle, haystack, p) && forall q: nat :: from <= q < p ==> !Occurs(needle, haystack, q)
  }

  /** memchr in the n characters from p on, all of them in s. */
  method MemChr(s: string, p: nat, c: char, n: nat) returns (r: Position)
    requires p + n <= |s|
    ensures r.Null? ==> c !in s[p..p + n]
    ensures r.At? ==> p <= r.pos < p + n && s[r.pos] == c && c !in s[p..r.pos]
  {
    for i := p to p + n
      invariant c !in s[p..i]
    {
      if s[i] == c {
        return At(i);
      }
    }
    return Null;
  }

  lemma DiffersAt(needle: string, haystack: string, q: nat, k: nat)
    requires k < |needle| && (q + k < |haystack| ==> haystack[q + k] != needle[k])
    ensures !Occurs(needle, haystack, q)
  {
    assert q + |needle| <= |haystack| ==> haystack[q..q + |needle|][k] == haystack[q + k];
  }

  lemma NotBefore(needle: string, haystack: string, p: nat, r: nat)
    requires needle != [] && p <= r <= |haystack| && needle[0] !in haystack[p..r]
    ensures forall q: nat :: p <= q < r ==> !Occurs(needle, haystack, q)
  {
    forall q: nat | p <= q < r ensures !Occurs(needle, haystack, q) {
      assert haystack[p..r][q - p] == haystack[q];
      DiffersAt(needle, haystack, q, 0);
    }
  }

  lemma OccursFrom(needle: string, haystack: string, p: nat)
    requires needle != [] && p + |needle| <= |haystack|
    ensures Occurs(needle, haystack, p) <==>
      needle[|needle| - 1] == haystack[p + |needle| - 1] && needle[..|needle| - 1] == haystack[p..p + |needle| - 1]
  {
    var n := |needle| - 1;
    assert haystack[p..p + |needle|] == haystack[p..p + n] + [haystack[p + n]];
    assert needle == needle[..n] + [needle[n]];
  }

  /** zend_memnstr: looks for the first character, tests the last, then compares the rest. */
  method MemNStr(haystack: string, needle: string) returns (r: Position)
    requires needle != []
    ensures First(r, needle, haystack, 0)
  {
    var n := |needle|;
    var ne := needle[n - 1];
    if n == 1 {
      r := MemChr(haystack, 0, needle[0], |haystack|);
      NotBefore(needle, haystack, 0, if r.At? then r.pos else |haystack|);
      return;
    }
    if n > |haystack| {
      return Null;
    }
    var p, end := 0, |haystack| - n;
    while p <= end
      invariant 0 <= p <= end + 1
      invariant forall q: nat :: q < p ==> !Occurs(needle, haystack, q)
    {
      r := MemChr(haystack, p, needle[0], end - p + 1);
      NotBefore(needle, haystack, p, if r.At? then r.pos else end + 1);
      if r.At? {
        OccursFrom(needle, haystack, r.pos);
        if ne == haystack[r.pos + n - 1] && needle[..n - 1] == haystack[r.pos..r.pos + n - 1] {
          return;
        }
      }
      if r == Null {
        return;
      }
      p := r.pos + 1;
    }
    return Null;
  }

  /** zend_memrchr: the last position of c in the first n characters. */
  method MemRChr(s: string, c: char, n: nat) returns (r: Position)
    requires n <= |s|
    ensures r == Null ==> forall i :: 0 <= i < n ==> s[i] != c
    ensures r.At? ==> r.pos < n && s[r.pos] == c && forall i :: r.pos < i < n ==> s[i] != c
  {
    if n == 0 {
      return Null;
    }
    var e: int := n - 1;
    while e >= 0
      invariant -1 <= e < n && forall i :: e < i < n ==> s[i] != c
    {
      if s[e] == c {
        return At(e);
      }
      e := e - 1;
    }
    return Null;
  }
}
