/** The used parts of the pages of an argument stack, bottom page first, and the
    single flat stack that they stand for. */
module PagedView {

  type View<T> = seq<seq<T>>

  /** The flat stack: the used parts one after the other. */
  function Flat<T>(v: View<T>): seq<T> {
    if v == [] then [] else Flat(v[..|v| - 1]) + v[|v| - 1]
  }

  /** Every page except possibly the bottom one holds something. */
  predicate Compact<T>(v: View<T>) {
    forall i :: 1 <= i < |v| ==> v[i] != []
  }

  /** One pop: a page that becomes empty is unlinked, the bottom page included. */
  function Drop1<T>(v: View<T>): View<T>
    requires v != [] && v[|v| - 1] != []
  {
    var n := |v| - 1;
    if |v[n]| == 1 then v[..n] else v[n := v[n][..|v[n]| - 1]]
  }

  lemma LastPageNonEmpty<T>(v: View<T>)
    requires Compact(v) && Flat(v) != []
    ensures v != [] && v[|v| - 1] != []
  {
    if |v| == 1 {
      assert Flat(v) == Flat(v[..0]) + v[0] == v[0];
    }
  }

  lemma FlatDrop1<T>(v: View<T>)
    requires Compact(v) && Flat(v) != []
    ensures v != [] && v[|v| - 1] != []
    ensures Compact(Drop1(v))
    ensures Flat(v) == Flat(Drop1(v)) + [v[|v| - 1][|v[|v| - 1]| - 1]]
  {
    LastPageNonEmpty(v);
    var n := |v| - 1;
    var w := Drop1(v);
    if |v[n]| == 1 {
      assert v[n] == [v[n][0]];
    } else {
      assert w[..n] == v[..n];
      assert v[n] == v[n][..|v[n]| - 1] + [v[n][|v[n]| - 1]];
    }
  }

  /** The top page cut down to its first off words, or unlinked if none remain. */
  function Cut<T>(v: View<T>, off: nat): View<T>
    requires v != [] && off <= |v[|v| - 1]|
  {
    var n := |v| - 1;
    if off == 0 then v[..n] else v[n := v[n][..off]]
  }

  /** n pops. */
  function Drop<T>(v: View<T>, n: nat): (w: View<T>)
    requires Compact(v) && n <= |Flat(v)|
    ensures |w| <= |v| && Compact(w) && Flat(w) == Flat(v)[..|Flat(v)| - n]
    decreases n
  {
    if n == 0 then v
    else
      var u := Drop(v, n - 1);
      FlatDrop1(u);
      Drop1(u)
  }

  lemma DropOne<T>(v: View<T>)
    requires Compact(v) && Flat(v) != []
    ensures v != [] && v[|v| - 1] != [] && Drop(v, 1) == Drop1(v)
  {
    FlatDrop1(v);
  }

  lemma DropNext<T>(v: View<T>, n: nat)
    requires Compact(v) && n < |Flat(v)|
    ensures var u := Drop(v, n); u != [] && u[|u| - 1] != [] && Drop(v, n + 1) == Drop1(u)
  {
    FlatDrop1(Drop(v, n));
  }

  /** w is what v may become when only pushes and allocations on top of it happen. */
  ghost predicate GrownFrom<T>(v: View<T>, w: View<T>) {
    0 < |v| <= |w| && v[..|v| - 1] == w[..|v| - 1] && v[|v| - 1] <= w[|v| - 1]
  }

  lemma GrowthReflexive<T>(v: View<T>)
    requires v != []
    ensures GrownFrom(v, v)
  {
  }

  lemma GrowthTransitive<T>(u: View<T>, v: View<T>, w: View<T>)
    requires GrownFrom(u, v) && GrownFrom(v, w)
    ensures GrownFrom(u, w)
  {
    var n := |u| - 1;
    assert w[..n] == w[..|v| - 1][..n] == v[..|v| - 1][..n] == u[..n];
    if n < |v| - 1 {
      assert w[n] == w[..|v| - 1][n] == v[n];
    }
  }

  lemma FlatAppendPage<T>(v: View<T>, page: seq<T>)
    ensures Flat(v + [page]) == Flat(v) + page
  {
    assert (v + [page])[..|v|] == v;
  }

  lemma FlatAppendWords<T>(v: View<T>, words: seq<T>)
    requires v != []
    ensures Flat(v[|v| - 1 := v[|v| - 1] + words]) == Flat(v) + words
  {
    var n := |v| - 1;
    assert v[n := v[n] + words][..n] == v[..n];
  }

  lemma GrowthCompact<T>(v: View<T>, w: View<T>)
    requires Compact(v) && GrownFrom(v, w) && |w| <= |v| + 1 && w[|w| - 1] != []
    requires |w| > |v| ==> w[..|v|] == v
    ensures Compact(w)
  {
    forall i | 1 <= i < |w| ensures w[i] != [] {
      if i < |v| - 1 {
        assert w[i] == w[..|v| - 1][i] == v[i];
      } else if i < |w| - 1 {
        assert w[i] == w[..|v|][i] == v[i];
      }
    }
  }

  lemma {:induction false} DropShifts<T>(v: View<T>, n: nat)
    requires Compact(v) && 1 <= n <= |Flat(v)|
    ensures v != [] && v[|v| - 1] != []
    ensures Compact(Drop1(v)) && n - 1 <= |Flat(Drop1(v))|
    ensures Drop(v, n) == Drop(Drop1(v), n - 1)
    decreases n
  {
    FlatDrop1(v);
    if n > 1 {
      DropShifts(v, n - 1);
    }
  }

  lemma FlatGrows<T>(v: View<T>, w: View<T>)
    requires GrownFrom(v, w)
    ensures Flat(v) <= Flat(w)
    decreases |w|
  {
    var n := |w| - 1;
    if |v| == |w| {
    } else {
      assert w[..n][..|v| - 1] == w[..|v| - 1];
      FlatGrows(v, w[..n]);
    }
  }

  /** A pop of what grew from v leaves something that grew from v. */
  lemma GrowthShrinks<T>(v: View<T>, w: View<T>)
    requires GrownFrom(v, w) && Compact(w) && v != w && v[|v| - 1] != []
    ensures w[|w| - 1] != [] && GrownFrom(v, Drop1(w))
  {
    var n := |w| - 1;
    if |v| == |w| {
      assert v == v[..n] + [v[n]] && w == w[..n] + [w[n]];
      assert v[n] != w[n] && v[n] == w[n][..|v[n]|];
      assert w[n][..|w[n]|] == w[n];
    }
    assert Drop1(w)[..|v| - 1] == w[..|v| - 1];
  }

  /** Pops undo growth exactly: the same pages come back at the same heights, as
      long as the page on top of v is in use. */
  lemma {:induction false} DropUndoesGrowth<T>(v: View<T>, w: View<T>)
    requires GrownFrom(v, w) && Compact(w) && v[|v| - 1] != []
    ensures Flat(v) <= Flat(w)
    ensures Drop(w, |Flat(w)| - |Flat(v)|) == v
    decreases |Flat(w)|
  {
    FlatGrows(v, w);
    if v != w {
      GrowthShrinks(v, w);
      FlatDrop1(w);
      DropUndoesGrowth(v, Drop1(w));
      DropShifts(w, |Flat(w)| - |Flat(v)|);
    }
  }

  /** Popping everything leaves an empty bottom page just if it was empty all along. */
  lemma {:induction false} DropAll<T>(w: View<T>)
    requires Compact(w)
    ensures Drop(w, |Flat(w)|) == if w != [] && w[0] == [] then [[]] else []
    decreases |Flat(w)|
  {
    if Flat(w) == [] {
      if |w| > 1 {
        LastInFlat(w);
      } else if |w| == 1 {
        assert Flat(w) == Flat(w[..0]) + w[0] == w[0];
      }
    } else {
      FlatDrop1(w);
      DropAll(Drop1(w));
      DropShifts(w, |Flat(w)|);
    }
  }

  lemma LastInFlat<T>(w: View<T>)
    requires w != []
    ensures Flat(w) == [] ==> w[|w| - 1] == []
  {
  }

  /** Pops undo growth exactly just when there was none, or the page on top of v is in use,
      or it was never used: a bottom page that empties is unlinked like any other. */
  lemma GrowthUndoneIff<T>(v: View<T>, w: View<T>)
    requires GrownFrom(v, w) && Compact(v) && Compact(w)
    ensures Flat(v) <= Flat(w)
    ensures Drop(w, |Flat(w)| - |Flat(v)|) == v <==> v == w || v[|v| - 1] != [] || w[|v| - 1] == []
  {
    FlatGrows(v, w);
    if v[|v| - 1] != [] {
      DropUndoesGrowth(v, w);
    } else {
      assert v == [[]] && Flat(v) == Flat(v[..0]) + v[0] == [];
      DropAll(w);
    }
  }

  /** A push onto an empty bottom page and its pop leave no page. */
  lemma EmptyBottomIsLost<T>(x: T)
    ensures GrownFrom<T>([[]], [[x]]) && Compact<T>([[]]) && Compact([[x]])
    ensures |Flat([[x]])| - |Flat<T>([[]])| == 1 && Drop([[x]], 1) == []
  {
    assert Flat([[x]]) == Flat([[x]][..0]) + [x] == [x];
    assert Flat<T>([[]]) == Flat<T>([[]][..0]) + [] == [];
    DropOne([[x]]);
  }

  lemma {:induction false} CutIsDrop<T>(v: View<T>, n: nat)
    requires Compact(v) && v != [] && 0 < |v[|v| - 1]| && n <= |v[|v| - 1]|
    ensures n <= |Flat(v)| && Cut(v, |v[|v| - 1]| - n) == Drop(v, n)
  {
    assert Flat(v) == Flat(v[..|v| - 1]) + v[|v| - 1];
    if n == 0 {
      assert v[|v| - 1][..|v[|v| - 1]|] == v[|v| - 1];
    } else {
      CutIsDrop(v, n - 1);
      var m, k := |v| - 1, |v[|v| - 1]| - n;
      var u := Cut(v, k + 1);
      assert u == v[m := v[m][..k + 1]] && u[m] == v[m][..k + 1];
      assert u[..m] == v[..m] && u[m][..k] == v[m][..k];
      assert k > 0 ==> u[m := u[m][..k]] == v[m := v[m][..k]];
    }
  }

  /** w is v with a word x on top that lies in one page with the n words below it, and
      cutting them off with it is the same as popping them from v. */
  ghost predicate Gathered<T>(v: View<T>, w: View<T>, n: nat, x: T)
    requires Compact(v) && n <= |Flat(v)|
  {
    && Flat(w) == Flat(v) + [x] && Compact(w)
    && w != [] && n < |w[|w| - 1]|
    && (Flat(v) != [] ==> Cut(w, |w[|w| - 1]| - 1 - n) == Drop(v, n))
  }

  lemma CutAppended<T>(v: View<T>, off: nat, x: T)
    requires v != [] && off <= |v[|v| - 1]|
    ensures Cut(v[|v| - 1 := v[|v| - 1] + [x]], off) == Cut(v, off)
  {
    var m := |v| - 1;
    var u := v[m := v[m] + [x]];
    assert u[..m] == v[..m];
    assert u[m][..off] == v[m][..off];
    assert u[m := u[m][..off]] == v[m := v[m][..off]];
  }

  lemma TopPageInFlat<T>(v: View<T>)
    requires v != []
    ensures |v[|v| - 1]| <= |Flat(v)|
  {
  }

  lemma AppendedCompact<T>(v: View<T>, x: T)
    requires Compact(v) && v != []
    ensures Compact(v[|v| - 1 := v[|v| - 1] + [x]])
  {
  }

  lemma CutAppendedIsDrop<T>(v: View<T>, n: nat, x: T)
    requires Compact(v) && v != [] && n <= |v[|v| - 1]| && 0 < |v[|v| - 1]| && n <= |Flat(v)|
    ensures Cut(v[|v| - 1 := v[|v| - 1] + [x]], |v[|v| - 1]| - n) == Drop(v, n)
  {
    hide *;
    CutAppended(v, |v[|v| - 1]| - n, x);
    CutIsDrop(v, n);
  }

  lemma GatheredInPlace<T>(v: View<T>, n: nat, x: T)
    requires Compact(v) && v != [] && n <= |v[|v| - 1]|
    ensures n <= |Flat(v)| && Gathered(v, v[|v| - 1 := v[|v| - 1] + [x]], n, x)
  {
    TopPageInFlat(v);
    AppendedCompact(v, x);
    FlatAppendWords(v, [x]);
    if Flat(v) != [] {
      LastPageNonEmpty(v);
      CutAppendedIsDrop(v, n, x);
    }
    hide Flat, Drop, Cut, Compact;
    GatheredParts(v, v[|v| - 1 := v[|v| - 1] + [x]], n, x);
  }

  lemma GatheredParts<T>(v: View<T>, w: View<T>, n: nat, x: T)
    requires Compact(v) && n <= |Flat(v)| && v != [] && n <= |v[|v| - 1]| && w == v[|v| - 1 := v[|v| - 1] + [x]]
    requires Flat(w) == Flat(v) + [x] && Compact(w)
    requires Flat(v) != [] ==> Cut(w, |v[|v| - 1]| - n) == Drop(v, n)
    ensures Gathered(v, w, n, x)
  {
    hide Flat, Drop, Cut, Compact;
  }

  lemma GatheredOnNewPage<T>(v: View<T>, n: nat, x: T)
    requires Compact(v) && n <= |Flat(v)|
    ensures Gathered(v, Drop(v, n) + [Flat(v)[|Flat(v)| - n..] + [x]], n, x)
  {
    var w := Drop(v, n);
    FlatAppendPage(w, Flat(v)[|Flat(v)| - n..] + [x]);
    assert (w + [Flat(v)[|Flat(v)| - n..] + [x]])[..|w|] == w;
  }
}
