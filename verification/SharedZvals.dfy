/** Slots that share reference-counted cells, as the executor stores variables. Z is
    the type of cell addresses. */
module SharedZvals {
  import opened Environment

  datatype Cell = Cell(value: Value, refcount: nat, isRef: bool)

  datatype Store<!Z> = Store(slots: map<Slot, Z>, cells: map<Z, Cell>)

  function Holders<Z>(m: Store<Z>, z: Z): set<Slot> {
    set s | s in m.slots && m.slots[s] == z
  }

  /** Every slot points to a cell, and a cell counts the slots that hold it. */
  ghost predicate Counted<Z>(m: Store<Z>) {
    && (forall s <- m.slots :: m.slots[s] in m.cells)
    && (forall z <- m.cells :: m.cells[z].refcount == |Holders(m, z)|)
  }

  function Refs<Z>(m: Store<Z>, s: Slot): set<Slot>
    requires s in m.slots && m.slots[s] in m.cells
  {
    if m.cells[m.slots[s]].isRef then Holders(m, m.slots[s]) else {}
  }

  function View<Z>(m: Store<Z>): Env
    requires forall s <- m.slots :: m.slots[s] in m.cells
  {
    Env(map s | s in m.slots :: m.cells[m.slots[s]].value, map s | s in m.slots :: Refs(m, s))
  }

  /** s lets go of its cell; a destructor with clears set resets is_ref on a cell left
      with one holder. */
  function Drop<Z>(m: Store<Z>, s: Slot, clears: bool): Store<Z>
    requires s in m.slots && m.slots[s] in m.cells && m.cells[m.slots[s]].refcount > 0
  {
    var z, c := m.slots[s], m.cells[m.slots[s]];
    Store(m.slots - {s}, m.cells[z := Cell(c.value, c.refcount - 1, c.isRef && !(clears && c.refcount == 2))])
  }

  /** t takes cell z. */
  function Point<Z>(m: Store<Z>, t: Slot, z: Z): Store<Z>
    requires z in m.cells
  {
    Store(m.slots[t := z], m.cells[z := m.cells[z].(refcount := m.cells[z].refcount + 1)])
  }

  /** t takes the new cell z. */
  function Alloc<Z>(m: Store<Z>, t: Slot, z: Z, v: Value): Store<Z> {
    Store(m.slots[t := z], m.cells[z := Cell(v, 1, false)])
  }

  function Update<Z>(m: Store<Z>, z: Z, v: Value, isRef: bool): Store<Z>
    requires z in m.cells
  {
    m.(cells := m.cells[z := m.cells[z].(value := v, isRef := isRef)])
  }

  lemma Singleton<T>(s: set<T>, x: T)
    requires x in s
    ensures |s| == 1 <==> s == {x}
  {
    assert |s - {x}| == |s| - 1;
  }

  lemma Held<Z>(m: Store<Z>, s: Slot)
    requires Counted(m) && s in m.slots
    ensures m.cells[m.slots[s]].refcount > 0
    ensures m.cells[m.slots[s]].refcount == 1 <==> Holders(m, m.slots[s]) == {s}
  {
    Singleton(Holders(m, m.slots[s]), s);
  }

  lemma ViewIs<Z>(m: Store<Z>, e: Env)
    requires forall s <- m.slots :: m.slots[s] in m.cells
    requires e.vals.Keys == m.slots.Keys == e.refs.Keys
    requires forall s <- m.slots :: e.vals[s] == m.cells[m.slots[s]].value && e.refs[s] == Refs(m, s)
    ensures View(m) == e
  {
    assert View(m).vals == e.vals;
    assert View(m).refs == e.refs;
  }

  lemma DropCounted<Z>(m: Store<Z>, s: Slot, clears: bool)
    requires Counted(m) && s in m.slots
    ensures m.cells[m.slots[s]].refcount > 0 && Counted(Drop(m, s, clears))
  {
    Held(m, s);
    var z, n := m.slots[s], Drop(m, s, clears);
    assert s in Holders(m, z);
    forall y <- n.cells ensures n.cells[y].refcount == |Holders(n, y)| {
      assert Holders(n, y) == Holders(m, y) - {s};
      assert y != z ==> s !in Holders(m, y);
    }
  }

  lemma DropIsRemove<Z>(m: Store<Z>, s: Slot, clears: bool)
    requires Counted(m) && s in m.slots
    ensures m.cells[m.slots[s]].refcount > 0 && Counted(Drop(m, s, clears))
    ensures View(Drop(m, s, clears)) == Remove(View(m), s, clears)
  {
    DropCounted(m, s, clears);
    var n, e := Drop(m, s, clears), Remove(View(m), s, clears);
    forall t <- n.slots ensures e.vals[t] == n.cells[n.slots[t]].value && e.refs[t] == Refs(n, t) {
      DropRefs(m, s, clears, t);
    }
    ViewIs(n, e);
  }

  lemma DropRefs<Z>(m: Store<Z>, s: Slot, clears: bool, t: Slot)
    requires Counted(m) && s in m.slots && t in m.slots && s != t && m.cells[m.slots[s]].refcount > 0
    ensures var r := Refs(m, t) - {s};
      Refs(Drop(m, s, clears), t) == if clears && s in Refs(m, t) && r == {t} then {} else r
  {
    var n := Drop(m, s, clears);
    assert Holders(n, m.slots[t]) == Holders(m, m.slots[t]) - {s};
    if m.slots[t] == m.slots[s] {
      assert s in Holders(m, m.slots[s]);
      Singleton(Holders(m, m.slots[t]) - {s}, t);
    }
  }

  lemma PointCounted<Z>(m: Store<Z>, t: Slot, z: Z)
    requires Counted(m) && z in m.cells && t !in m.slots
    ensures Counted(Point(m, t, z))
  {
    var n := Point(m, t, z);
    assert t !in Holders(m, z);
    forall y <- n.cells ensures n.cells[y].refcount == |Holders(n, y)| {
      PointHolders(m, t, z, y);
    }
  }

  lemma PointHolders<Z>(m: Store<Z>, t: Slot, z: Z, y: Z)
    requires z in m.cells && t !in m.slots
    ensures Holders(Point(m, t, z), y) == if y == z then Holders(m, y) + {t} else Holders(m, y)
  {
  }

  lemma PointIsShare<Z>(m: Store<Z>, s: Slot, t: Slot)
    requires Counted(m) && s in m.slots && t !in m.slots
    ensures Counted(Point(m, t, m.slots[s])) && View(Point(m, t, m.slots[s])) == Share(View(m), s, t)
  {
    PointCounted(m, t, m.slots[s]);
    var n, e := Point(m, t, m.slots[s]), Share(View(m), s, t);
    forall x <- n.slots ensures e.vals[x] == n.cells[n.slots[x]].value && e.refs[x] == Refs(n, x) {
      PointRefs(m, s, t, x);
    }
    ViewIs(n, e);
  }

  lemma PointRefs<Z>(m: Store<Z>, s: Slot, t: Slot, x: Slot)
    requires Counted(m) && s in m.slots && t !in m.slots && (x == t || x in m.slots)
    ensures View(m).refs[s] == Refs(m, s)
    ensures Refs(Point(m, t, m.slots[s]), x) == Share(View(m), s, t).refs[x]
  {
    var z := m.slots[s];
    var n := Point(m, t, z);
    assert Holders(n, n.slots[x]) == if n.slots[x] == z then Holders(m, z) + {t} else Holders(m, n.slots[x]);
    assert s in Holders(m, z) && (x != t ==> x in Holders(m, m.slots[x]));
  }

  lemma AllocIsBind<Z>(m: Store<Z>, t: Slot, z: Z, v: Value)
    requires Counted(m) && t !in m.slots && z !in m.cells
    ensures Counted(Alloc(m, t, z, v)) && View(Alloc(m, t, z, v)) == Bind(View(m), t, v)
  {
    AllocCounted(m, t, z, v);
    ViewIs(Alloc(m, t, z, v), Bind(View(m), t, v));
  }

  lemma AllocCounted<Z>(m: Store<Z>, t: Slot, z: Z, v: Value)
    requires Counted(m) && t !in m.slots && z !in m.cells
    ensures Counted(Alloc(m, t, z, v)) && forall y <- m.cells :: Holders(Alloc(m, t, z, v), y) == Holders(m, y)
  {
    var n := Alloc(m, t, z, v);
    assert Holders(n, z) == {t};
    forall y <- m.cells ensures Holders(n, y) == Holders(m, y) {
    }
  }

  lemma HoldersUpdated<Z>(m: Store<Z>, z: Z, v: Value, isRef: bool)
    requires Counted(m) && z in m.cells
    ensures Counted(Update(m, z, v, isRef))
    ensures forall y <- m.cells :: Holders(Update(m, z, v, isRef), y) == Holders(m, y)
  {
    var n := Update(m, z, v, isRef);
    forall y <- m.cells ensures Holders(n, y) == Holders(m, y) {
    }
  }

  /** Making the only holder of a cell a reference. */
  lemma UpdateIsMakeRef<Z>(m: Store<Z>, s: Slot)
    requires Counted(m) && s in m.slots && m.cells[m.slots[s]].refcount == 1
    ensures Counted(Update(m, m.slots[s], m.cells[m.slots[s]].value, true))
    ensures View(Update(m, m.slots[s], m.cells[m.slots[s]].value, true)) == MakeRef(View(m), s)
  {
    var z := m.slots[s];
    var n := Update(m, z, m.cells[z].value, true);
    HoldersUpdated(m, z, m.cells[z].value, true);
    Held(m, s);
    forall t <- m.slots ensures MakeRef(View(m), s).refs[t] == Refs(n, t) {
      assert t in Holders(m, m.slots[t]);
    }
    ViewIs(n, MakeRef(View(m), s));
  }

  /** Writing in place to a cell that is a reference or has one holder. */
  lemma UpdateIsWrite<Z>(m: Store<Z>, s: Slot, v: Value)
    requires Counted(m) && s in m.slots
    requires m.cells[m.slots[s]].isRef || m.cells[m.slots[s]].refcount == 1
    ensures Counted(Update(m, m.slots[s], v, m.cells[m.slots[s]].isRef))
    ensures View(Update(m, m.slots[s], v, m.cells[m.slots[s]].isRef)) == Write(View(m), s, v)
  {
    var z := m.slots[s];
    var n := Update(m, z, v, m.cells[z].isRef);
    HoldersUpdated(m, z, v, m.cells[z].isRef);
    Held(m, s);
    assert s in Holders(m, z);
    var e := Write(View(m), s, v);
    forall t <- m.slots ensures e.vals[t] == n.cells[n.slots[t]].value && e.refs[t] == Refs(n, t) {
      assert t in Reach(View(m), s) <==> t in Holders(m, z);
    }
    ViewIs(n, e);
  }

  /** Giving a slot that is no reference a cell of its own changes nothing. */
  lemma SeparationIsHidden<Z>(m: Store<Z>, s: Slot, z: Z)
    requires Counted(m) && s in m.slots && z !in m.cells && !m.cells[m.slots[s]].isRef
    ensures m.cells[m.slots[s]].refcount > 0
    ensures var n := Alloc(Drop(m, s, false), s, z, m.cells[m.slots[s]].value);
      Counted(n) && View(n) == View(m)
  {
    DropIsRemove(m, s, false);
    AllocIsBind(Drop(m, s, false), s, z, m.cells[m.slots[s]].value);
    assert forall t <- m.slots :: s !in Refs(m, t);
    RemoveBind(View(m), s);
  }

  lemma RemoveBind(e: Env, s: Slot)
    requires e.vals.Keys == e.refs.Keys && s in e.vals && e.refs[s] == {}
    requires forall t <- e.refs :: s !in e.refs[t]
    ensures Bind(Remove(e, s, false), s, e.vals[s]) == e
  {
    var n := Bind(Remove(e, s, false), s, e.vals[s]);
    assert n.vals == e.vals;
    forall t <- e.refs ensures n.refs[t] == e.refs[t] {
      assert e.refs[t] - {s} == e.refs[t];
    }
    assert n.refs == e.refs;
  }
}
