/** The symtable operations: a table keyed by integers or strings, used as a map keyed by
    strings. */
module Symtable {
  import opened Wrappers
  import opened Words
  import opened Numerals
  import opened NumericKey

  datatype Key = Index(h: nat) | Name(text: string)

  /** The key an entry for this string is filed under. */
  ghost function Normal(key: string, w: Width): (k: Key)
    ensures k.Index? ==> k.h < w.Modulus()
  {
    if IsIndex(key, w) then Index(w.Unsigned(Number(key))) else Name(key)
  }

  predicate IsIndex(key: string, w: Width) {
    Canonical(key) && w.Fits(Number(key))
  }

  /** The text of the long that index h stands for. */
  function Printed(h: nat, w: Width): string
    requires h < w.Modulus()
  {
    Text(w.Signed(h)) + [NUL]
  }

  /** The string that an entry filed under k belongs to. */
  function Original(k: Key, w: Width): string
    requires k.Index? ==> k.h < w.Modulus()
  {
    match k
    case Index(h) => Printed(h, w)
    case Name(text) => text
  }

  lemma NormalOfPrinted(h: nat, w: Width)
    requires h < w.Modulus()
    ensures Normal(Printed(h, w), w) == Index(h)
  {
    PrintsCanonical(Printed(h, w), w.Signed(h));
  }

  /** No two strings are filed under one key. */
  lemma NormalInjective(a: string, b: string, w: Width)
    requires Normal(a, w) == Normal(b, w)
    ensures a == b
  {
    if IsIndex(a, w) {
      w.UnsignedInjective(Number(a), Number(b));
      CanonicalPrints(a);
      CanonicalPrints(b);
    }
  }

  lemma OriginalNormal(key: string, w: Width)
    ensures Original(Normal(key, w), w) == key
  {
    if IsIndex(key, w) {
      NormalOfPrinted(w.Unsigned(Number(key)), w);
      NormalInjective(Original(Normal(key, w), w), key, w);
    }
  }

  class Table<V> {
    const w: Width
    var ht: map<Key, V>

    ghost predicate Valid()
      reads this
    {
      forall k <- ht :: k.Index? ==> k.h < w.Modulus()
    }

    constructor (w: Width)
      ensures Valid() && this.w == w && Contents() == map[]
    {
      this.w := w;
      ht := map[];
    }

    /** The map keyed by strings that the table stands for. */
    ghost function Contents(): (m: map<string, V>)
      requires Valid()
      reads this
      ensures forall key :: key in m <==> Normal(key, w) in ht
      ensures forall key :: key in m ==> m[key] == ht[Normal(key, w)]
    {
      var keys := set k | k in ht :: Original(k, w);
      forall key | Normal(key, w) in ht ensures key in keys {
        OriginalNormal(key, w);
      }
      map key | key in keys && Normal(key, w) in ht :: ht[Normal(key, w)]
    }

    /** ZEND_HANDLE_NUMERIC: the key an operation on this string works with. */
    method Normalize(mem: string, length: nat) returns (k: Key)
      requires 1 <= length <= |mem| && (mem[0] == '-' ==> |mem| > 1)
      ensures k == Normal(mem[..length], w)
    {
      var numeric, idx := Scan(mem, length, w);
      k := if numeric then Index(idx) else Name(mem[..length]);
    }

    method Update(mem: string, length: nat, v: V)
      requires Valid() && 1 <= length <= |mem| && (mem[0] == '-' ==> |mem| > 1)
      modifies this
      ensures Valid() && Contents() == old(Contents())[mem[..length] := v]
    {
      var k := Normalize(mem, length);
      ht := ht[k := v];
      OnlyOne(mem[..length]);
    }

    method Del(mem: string, length: nat) returns (found: bool)
      requires Valid() && 1 <= length <= |mem| && (mem[0] == '-' ==> |mem| > 1)
      modifies this
      ensures found <==> mem[..length] in old(Contents())
      ensures Valid() && Contents() == old(Contents()) - {mem[..length]}
    {
      var k := Normalize(mem, length);
      found := k in ht;
      ht := ht - {k};
      OnlyOne(mem[..length]);
    }

    method Find(mem: string, length: nat) returns (found: Option<V>)
      requires Valid() && 1 <= length <= |mem| && (mem[0] == '-' ==> |mem| > 1)
      ensures found == if mem[..length] in Contents() then Some(Contents()[mem[..length]]) else None
    {
      var k := Normalize(mem, length);
      found := if k in ht then Some(ht[k]) else None;
    }

    method Exists(mem: string, length: nat) returns (found: bool)
      requires Valid() && 1 <= length <= |mem| && (mem[0] == '-' ==> |mem| > 1)
      ensures found <==> mem[..length] in Contents()
    {
      var k := Normalize(mem, length);
      found := k in ht;
    }

    /** zend_hash_index_update: the entry of the printed integer. */
    method IndexUpdate(h: nat, v: V)
      requires Valid() && h < w.Modulus()
      modifies this
      ensures Valid() && Contents() == old(Contents())[Printed(h, w) := v]
    {
      ht := ht[Index(h) := v];
      NormalOfPrinted(h, w);
      OnlyOne(Printed(h, w));
    }

    method IndexDel(h: nat) returns (found: bool)
      requires Valid() && h < w.Modulus()
      modifies this
      ensures found <==> Printed(h, w) in old(Contents())
      ensures Valid() && Contents() == old(Contents()) - {Printed(h, w)}
    {
      found := Index(h) in ht;
      ht := ht - {Index(h)};
      NormalOfPrinted(h, w);
      OnlyOne(Printed(h, w));
    }

    method IndexFind(h: nat) returns (found: Option<V>)
      requires Valid() && h < w.Modulus()
      ensures found == if Printed(h, w) in Contents() then Some(Contents()[Printed(h, w)]) else None
    {
      NormalOfPrinted(h, w);
      found := if Index(h) in ht then Some(ht[Index(h)]) else None;
    }

    method IndexExists(h: nat) returns (found: bool)
      requires Valid() && h < w.Modulus()
      ensures found <==> Printed(h, w) in Contents()
    {
      NormalOfPrinted(h, w);
      found := Index(h) in ht;
    }

    /** Only one string is filed under the key of key. */
    lemma OnlyOne(key: string)
      ensures forall other :: Normal(other, w) == Normal(key, w) ==> other == key
    {
      forall other | Normal(other, w) == Normal(key, w) ensures other == key {
        NormalInjective(other, key, w);
      }
    }
  }
}
