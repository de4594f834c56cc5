/** The cache of symbol-table slots that each frame keeps for its compiled variables, and
    what keeps it right when a variable is unset. */
module CompiledVars {
  import opened Wrappers
  import opened Words
  import opened NumericKey
  import opened Symtable

  /** A symbol table: the slot of each variable, and beside them the elements with integer
      keys that a script may add. */
  class Table {
    var slots: map<string, nat>
    var indices: set<nat>

    constructor ()
      ensures slots == map[] && indices == {}
    {
      slots, indices := map[], {};
    }
  }

  /** An executing function or file: its compiled variables, the slots cached for them,
      and the symbol table it works on, if it has one. Without one its variables live in
      the frame. A frame of a builtin has no op_array. */
  class Frame {
    const vars: seq<string>
    const hasOpArray: bool
    /** Whether it works on the symbol table of its caller, as an included file and a
        builtin do. */
    const included: bool
    const prev: Frame?
    var cvs: seq<Option<nat>>
    var table: Table?

    constructor (vars: seq<string>, hasOpArray: bool, included: bool, prev: Frame?, table: Table?)
      ensures this.vars == vars && this.hasOpArray == hasOpArray && this.included == included
      ensures this.prev == prev && this.table == table
      ensures cvs == seq(|vars|, _ => None)
    {
      this.vars, this.hasOpArray, this.included, this.prev, this.table := vars, hasOpArray, included, prev, table;
      cvs := seq(|vars|, _ => None);
    }

    /** Every slot cached is the one the symbol table has for that name. */
    ghost predicate Coherent()
      reads this, table
    {
      && |cvs| == |vars| && Unique(vars)
      && (hasOpArray && table != null ==> Agrees(cvs, vars, table.slots))
    }

    /** The inner loops of the unset handlers: forgets the slot of name. */
    method Forget(name: string)
      requires |cvs| == |vars| && Unique(vars)
      modifies this`cvs
      ensures cvs == Without(old(cvs), vars, name)
      ensures |cvs| == |vars| && forall i :: 0 <= i < |vars| ==> cvs[i] == if vars[i] == name then None else old(cvs)[i]
    {
      for i := 0 to |vars|
        invariant cvs == old(cvs) && name !in vars[..i]
      {
        if vars[i] == name {
          cvs := cvs[i := None];
          break;
        }
      }
    }
  }

  type Cache = seq<Option<nat>>

  ghost predicate Agrees(cvs: Cache, vars: seq<string>, slots: map<string, nat>)
    requires |cvs| == |vars|
  {
    forall i :: 0 <= i < |vars| && cvs[i].Some? ==> vars[i] in slots && slots[vars[i]] == cvs[i].value
  }

  /** cvs has a slot for name. */
  predicate Has(cvs: Cache, vars: seq<string>, name: string)
    requires |cvs| == |vars|
  {
    exists i :: 0 <= i < |vars| && vars[i] == name && cvs[i].Some?
  }

  /** A table with just the variables that a cache has, in the same slots. */
  ghost predicate Holds(slots: map<string, nat>, cvs: Cache, vars: seq<string>) {
    && |cvs| == |vars| && (forall name <- slots :: name in vars)
    && forall i :: 0 <= i < |vars| ==>
      (vars[i] in slots <==> cvs[i].Some?) && (cvs[i].Some? ==> slots[vars[i]] == cvs[i].value)
  }

  lemma AgreesWithout(cvs: Cache, vars: seq<string>, slots: map<string, nat>, name: string)
    requires |cvs| == |vars| && Agrees(cvs, vars, slots)
    ensures Agrees(Without(cvs, vars, name), vars, slots) && Agrees(Without(cvs, vars, name), vars, slots - {name})
    ensures Agrees(cvs, vars, slots - {name}) <==> !Has(cvs, vars, name)
    ensures !Has(cvs, vars, name) ==> Without(cvs, vars, name) == cvs
  {
  }

  lemma AgreesAfter(cvs: Cache, cvs': Cache, vars: seq<string>, slots: map<string, nat>, slots': map<string, nat>,
      onTarget: bool, name: string, reached: bool)
    requires |cvs| == |vars| && Agrees(cvs, vars, slots)
    requires cvs' == if reached then Without(cvs, vars, name) else cvs
    requires slots' == if onTarget then slots - {name} else slots
    ensures |cvs'| == |vars|
    ensures Agrees(cvs', vars, slots') <==> reached || !(onTarget && Has(cvs', vars, name))
  {
    AgreesWithout(cvs, vars, slots, name);
  }

  lemma NothingToRemove<V>(slots: map<string, V>, name: string)
    requires name !in slots
    ensures slots - {name} == slots
  {
  }

  ghost predicate Unique(names: seq<string>) {
    forall i, j :: 0 <= i < j < |names| ==> names[i] != names[j]
  }

  /** cvs without what it has for name. */
  function Without(cvs: seq<Option<nat>>, vars: seq<string>, name: string): seq<Option<nat>> {
    seq(|cvs|, i requires 0 <= i < |cvs| => if i < |vars| && vars[i] == name then None else cvs[i])
  }

  /** Where names are listed once, forgetting one forgets one slot. */
  lemma WithoutIs(cvs: Cache, vars: seq<string>, v: nat)
    requires |cvs| == |vars| && Unique(vars) && v < |vars|
    ensures Without(cvs, vars, vars[v]) == cvs[v := None]
  {
  }

  ghost function Caches(fs: seq<Frame>): (cs: seq<Cache>)
    reads fs`cvs
    ensures |cs| == |fs| && forall i :: 0 <= i < |fs| ==> cs[i] == fs[i].cvs
  {
    if fs == [] then [] else Caches(fs[..|fs| - 1]) + [fs[|fs| - 1].cvs]
  }

  /** The caches cs of the frames fs, without name in those from s up to e. */
  ghost function Forgotten(cs: seq<Cache>, fs: seq<Frame>, name: string, s: nat, e: nat): (r: seq<Cache>)
    requires |cs| == |fs|
    ensures |r| == |cs|
  {
    seq(|cs|, i requires 0 <= i < |cs| =>
      if s <= i < e && fs[i].hasOpArray then Without(cs[i], fs[i].vars, name) else cs[i])
  }

  ghost predicate Sized(fs: seq<Frame>)
    reads fs`cvs
  {
    forall f <- fs :: |f.cvs| == |f.vars| && Unique(f.vars)
  }

  function WithoutIn(f: Frame, cs: Cache, name: string): Cache {
    if f.hasOpArray then Without(cs, f.vars, name) else cs
  }

  method ForgetIn(f: Frame, name: string, ghost fs: seq<Frame>, ghost i: nat)
    requires i < |fs| && f == fs[i] && Distinct(fs) && Sized(fs)
    modifies f`cvs
    ensures Sized(fs) && Caches(fs) == old(Caches(fs))[i := WithoutIn(f, old(f.cvs), name)]
  {
    if f.hasOpArray {
      f.Forget(name);
    }
  }

  lemma ForgottenStep(cs: seq<Cache>, fs: seq<Frame>, name: string, s: nat, e: nat)
    requires |cs| == |fs| && 0 < s <= e <= |fs|
    ensures Forgotten(cs, fs, name, s - 1, e)
      == Forgotten(cs, fs, name, s, e)[s - 1 := WithoutIn(fs[s - 1], cs[s - 1], name)]
    ensures Forgotten(cs, fs, name, s, e)[s - 1] == cs[s - 1]
  {
  }

  method ForgetNext(f: Frame, name: string, ghost cs: seq<Cache>, ghost fs: seq<Frame>, ghost s: nat, ghost e: nat)
    requires 0 < s <= e <= |fs| && Chain(f, fs[..s]) && Distinct(fs) && Sized(fs)
    requires |cs| == |fs| && Caches(fs) == Forgotten(cs, fs, name, s, e)
    modifies f`cvs
    ensures Sized(fs) && f == fs[s - 1] && Chain(f.prev, fs[..s - 1])
    ensures f.prev == null <==> s == 1
    ensures f.prev != null ==> f.prev == fs[s - 2]
    ensures Caches(fs) == Forgotten(cs, fs, name, s - 1, e)
  {
    assert fs[..s][..s - 1] == fs[..s - 1];
    ForgottenStep(cs, fs, name, s, e);
    ChainTop(f.prev, fs[..s - 1]);
    hide Forgotten, WithoutIn, Without, Sized, Distinct, Unique;
    ForgetIn(f, name, fs, s - 1);
  }

  lemma ChainTop(f: Frame?, fs: seq<Frame>)
    requires Chain(f, fs)
    ensures f == null <==> fs == []
    ensures f != null ==> f == fs[|fs| - 1]
  {
  }

  /** The frames from s up to e work on t. */
  ghost predicate Share(fs: seq<Frame>, t: Table?, s: nat, e: nat)
    requires e <= |fs|
    reads fs`table
  {
    forall i :: s <= i < e ==> fs[i].table == t
  }

  lemma ShareMore(fs: seq<Frame>, t: Table?, s: nat, e: nat)
    requires s <= e <= |fs| && Share(fs, t, s, e)
    ensures s > 0 && fs[s - 1].table == t ==> Share(fs, t, s - 1, e)
  {
  }

  method ForgetOnTable(f: Frame, t: Table, name: string, ghost cs: seq<Cache>, ghost fs: seq<Frame>, ghost s: nat, ghost e: nat)
    requires 0 < s <= e <= |fs| && At(f, fs, s) && Distinct(fs) && Sized(fs) && f.table == t
    requires |cs| == |fs| && Caches(fs) == Forgotten(cs, fs, name, s, e) && Share(fs, t, s, e)
    modifies f`cvs
    ensures Sized(fs) && At(f.prev, fs, s - 1)
    ensures Caches(fs) == Forgotten(cs, fs, name, s - 1, e) && Share(fs, t, s - 1, e)
  {
    hide *;
    ShareMore(fs, t, s, e);
    ForgetNext(f, name, cs, fs, s, e);
    ChainIsAt(f.prev, fs, s - 1);
  }

  lemma NoneForgotten(cs: seq<Cache>, fs: seq<Frame>, name: string, t: Table, e: nat)
    requires |cs| == |fs| && e <= |fs|
    ensures Forgotten(cs, fs, name, e, e) == cs && Share(fs, t, e, e)
  {
  }

  /** The outer loops of the unset handlers: forgets name in the frames from ex outwards
      that work on table t, and stops at the first that does not. fs are the frames up to
      the current one, ex the one below index e. */
  method ForgetSharing(ex: Frame?, t: Table, name: string, ghost fs: seq<Frame>, ghost e: nat) returns (ghost s: nat)
    requires e <= |fs| && Chain(ex, fs[..e]) && Distinct(fs) && Sized(fs)
    modifies fs`cvs
    ensures s <= e && Sized(fs) && Caches(fs) == Forgotten(old(Caches(fs)), fs, name, s, e)
    ensures Share(fs, t, s, e) && (s > 0 ==> fs[s - 1].table != t)
  {
    var f := ex;
    s := e;
    ghost var cs := Caches(fs);
    NoneForgotten(cs, fs, name, t, e);
    hide *;
    ChainIsAt(f, fs, s);
    while f != null && f.table == t
      invariant s <= e && At(f, fs, s) && Sized(fs)
      invariant Caches(fs) == Forgotten(cs, fs, name, s, e) && Share(fs, t, s, e)
      decreases s
    {
      ForgetOnTable(f, t, name, cs, fs, s, e);
      s, f := s - 1, f.prev;
    }
  }

  /** f is the innermost of the first s frames. */
  ghost predicate At(f: Frame?, fs: seq<Frame>, s: nat)
    ensures At(f, fs, s) ==> s <= |fs| && Chain(f, fs[..s]) && (f == null <==> s == 0) && (f != null ==> f == fs[s - 1])
  {
    s <= |fs| && Chain(f, fs[..s]) && (f == null <==> s == 0) && (f != null ==> f == fs[s - 1])
  }

  lemma ChainIsAt(f: Frame?, fs: seq<Frame>, s: nat)
    requires s <= |fs| && Chain(f, fs[..s])
    ensures At(f, fs, s)
  {
    ChainTop(f, fs[..s]);
  }

  ghost predicate Distinct(fs: seq<Frame>) {
    forall i, j :: 0 <= i < j < |fs| ==> fs[i] != fs[j]
  }

  /** Following prev from f gives the frames fs, which are distinct; innermost last. */
  ghost predicate Chain(f: Frame?, fs: seq<Frame>) {
    if fs == [] then f == null
    else
      var n := |fs| - 1;
      f == fs[n] && fs[n] !in fs[..n] && Chain(fs[n].prev, fs[..n])
  }

  /** Frames that share a symbol table are next to each other. */
  ghost predicate Contiguous(fs: seq<Frame>)
    reads fs`table
  {
    forall i, j, k :: 0 <= i < j < k < |fs| && fs[i].table != null && fs[i].table == fs[k].table ==>
      fs[j].table == fs[i].table
  }

  /** Exactly the included frames work on the table of their caller; one that has no
      table is a builtin's. */
  ghost predicate Included(fs: seq<Frame>)
    reads fs`table
  {
    if fs == [] then true
    else
      var n := |fs| - 1;
      && (fs[n].included ==> n > 0 && fs[n].table == fs[n - 1].table && (fs[n].table == null ==> !fs[n].hasOpArray))
      && (n > 0 && fs[n].table != null && fs[n].table == fs[n - 1].table ==> fs[n].included)
      && Included(fs[..n])
  }

  ghost predicate AllCoherent(fs: seq<Frame>)
    reads fs, set f | f in fs :: f.table
  {
    forall f <- fs :: f.Coherent()
  }

  class Executor {
    var current: Frame?
    /** EG(active_symbol_table) and EG(symbol_table) */
    var activeTable: Table?
    const globals: Table

    ghost var frames: seq<Frame>

    ghost predicate Wf()
      reads this, frames`table
      ensures Wf() ==> frames != [] && current == frames[|frames| - 1] && activeTable == current.table
    {
      && Chain(current, frames) && Distinct(frames) && frames != []
      && activeTable == current.table
      && Contiguous(frames) && Included(frames)
    }

    ghost predicate Valid()
      reads this, frames, set f | f in frames :: f.table
      ensures Valid() ==> current != null && |current.cvs| == |current.vars|
    {
      Wf() && AllCoherent(frames) && (assert frames[|frames| - 1].Coherent(); true)
    }

    constructor (vars: seq<string>)
      requires Unique(vars)
      ensures Valid() && frames == [current] && fresh(current) && activeTable == globals && fresh(globals)
      ensures current.vars == vars && current.hasOpArray
    {
      var main := new Table();
      var f := new Frame(vars, true, false, null, main);
      globals, activeTable, current := main, main, f;
      frames := [f];
    }

    /** The loop of UNSET_VAR that starts at the current frame. */
    method ForgetFromCurrent(name: string, target: Table) returns (ghost s: nat)
      requires Wf() && Sized(frames)
      modifies frames`cvs
      ensures s < |frames| && Sized(frames)
      ensures Caches(frames) == Forgotten(old(Caches(frames)), frames, name, s, |frames|)
      ensures Share(frames, target, s, |frames| - 1) && (s > 0 ==> frames[s - 1].table != target)
    {
      hide Contiguous, Included;
      ghost var n := |frames| - 1;
      assert frames[..|frames|] == frames;
      ghost var cs := Caches(frames);
      ForgottenStep(cs, frames, name, |frames|, |frames|);
      assert Forgotten(cs, frames, name, |frames|, |frames|) == cs;
      ForgetIn(current, name, frames, n);
      ghost var cs1 := Caches(frames);
      s := ForgetSharing(current.prev, target, name, frames, n);
      assert Forgotten(cs1, frames, name, s, n) == Forgotten(cs, frames, name, s, |frames|);
    }

    /** The loop that unset name in target did not reach a frame on the same table that
        has the name cached. s is where it stopped. */
    ghost predicate Missed(name: string, target: Table, s: nat)
      requires Sized(frames) && s < |frames|
      reads this, frames
    {
      exists i :: 0 <= i < s && frames[i].table == target && frames[i].hasOpArray
        && Has(frames[i].cvs, frames[i].vars, name)
    }

    /** The caches before agreed with the tables, whose slots were in before, and the tables
        now are without name if they are t. */
    ghost predicate Removed(before: seq<Cache>, slots: seq<map<string, nat>>, name: string, t: Table)
      reads this`frames, frames`table, set f | f in frames :: f.table
    {
      && |before| == |slots| == |frames|
      && forall i :: 0 <= i < |frames| && frames[i].hasOpArray && frames[i].table != null ==>
        && |before[i]| == |frames[i].vars| && Agrees(before[i], frames[i].vars, slots[i])
        && frames[i].table.slots == if frames[i].table == t then slots[i] - {name} else slots[i]
    }

    /** Forgetting name in every frame on the table it was unset in keeps them coherent. */
    lemma StayCoherent(before: seq<Cache>, slots: seq<map<string, nat>>, name: string, t: Table)
      requires Removed(before, slots, name, t) && ForgottenOn(before, name, t) && Sized(frames)
      ensures AllCoherent(frames)
    {
      hide Without, Agrees, Has, Unique;
      forall i | 0 <= i < |frames| ensures frames[i].Coherent() {
        var f := frames[i];
        if f.hasOpArray && f.table != null {
          AgreesAfter(before[i], f.cvs, f.vars, slots[i], f.table.slots, f.table == t, name, f.table == t);
        }
      }
    }

    method RemoveFrom(name: string, t: Table) returns (ghost slots: seq<map<string, nat>>)
      requires Sized(frames) && AllCoherent(frames)
      modifies t`slots
      ensures t.slots == old(t.slots) - {name}
      ensures Removed(Caches(frames), slots, name, t)
    {
      hide Without, Agrees, Has, Unique;
      ghost var fs := frames;
      slots := seq(|fs|, i requires 0 <= i < |fs| reads fs, set f | f in fs :: f.table =>
        if fs[i].table != null then fs[i].table.slots else map[]);
      assert forall i :: 0 <= i < |frames| ==> frames[i].Coherent();
      t.slots := t.slots - {name};
    }

    method RemoveAndForget(name: string, target: Table) returns (ghost s: nat)
      requires Wf() && Sized(frames) && AllCoherent(frames)
      modifies frames`cvs, target`slots
      ensures Wf() && Sized(frames) && s < |frames|
      ensures target.slots == old(target.slots) - {name}
      ensures Caches(frames) == Forgotten(old(Caches(frames)), frames, name, s, |frames|)
      ensures Share(frames, target, s, |frames| - 1) && (s > 0 ==> frames[s - 1].table != target)
      ensures AllCoherent(frames) <==> !old(Stranded(name, target))
    {
      hide *;
      ghost var before := Caches(frames);
      StrandedIs(name, target);
      ghost var slots := RemoveFrom(name, target);
      s := ForgetFromCurrent(name, target);
      ForgottenOrMissed(before, slots, name, target, s);
      MissedIff(before, name, target, s);
    }

    /** With the caches cs, a frame on the table has the name cached, and between it and the
        current frame is one on another table. */
    ghost predicate StrandedIn(cs: seq<Cache>, name: string, target: Table)
      reads this`frames, frames`table
    {
      |cs| == |frames| &&
      exists i, j :: 0 <= i < j < |frames| - 1 && HasOn(cs, i, name, target) && frames[j].table != target
    }

    ghost predicate HasOn(cs: seq<Cache>, i: nat, name: string, target: Table)
      requires |cs| == |frames| && i < |frames|
      reads this`frames, frames`table
    {
      && frames[i].table == target && frames[i].hasOpArray
      && |cs[i]| == |frames[i].vars| && Has(cs[i], frames[i].vars, name)
    }

    /** What the loop misses is what was stranded before. */
    lemma MissedIff(before: seq<Cache>, name: string, target: Table, s: nat)
      requires Sized(frames) && |before| == |frames| && s < |frames|
      requires Caches(frames) == Forgotten(before, frames, name, s, |frames|)
      requires Share(frames, target, s, |frames| - 1) && (s > 0 ==> frames[s - 1].table != target)
      ensures Missed(name, target, s) <==> StrandedIn(before, name, target)
    {
      hide Has, Without, Unique;
      forall i | 0 <= i < s ensures frames[i].cvs == before[i] {
        assert Caches(frames)[i] == Forgotten(before, frames, name, s, |frames|)[i];
      }
      if Missed(name, target, s) {
        var i :| 0 <= i < s && frames[i].table == target && frames[i].hasOpArray
          && Has(frames[i].cvs, frames[i].vars, name);
        assert HasOn(before, i, name, target) && frames[s - 1].table != target;
      }
    }

    /** Forgetting name from frame s on leaves every cache right just when none was missed. */
    lemma ForgottenOrMissed(before: seq<Cache>, slots: seq<map<string, nat>>, name: string, t: Table, s: nat)
      requires Removed(before, slots, name, t) && Sized(frames) && s < |frames|
      requires Caches(frames) == Forgotten(before, frames, name, s, |frames|)
      ensures AllCoherent(frames) <==> !Missed(name, t, s)
    {
      hide Agrees, Has, Without, Unique;
      forall i | 0 <= i < |frames|
        ensures frames[i].Coherent() <==>
          i >= s || !(frames[i].table == t && frames[i].hasOpArray && Has(frames[i].cvs, frames[i].vars, name))
      {
        var f := frames[i];
        assert Caches(frames)[i] == f.cvs && f.cvs == if i >= s then WithoutIn(f, before[i], name) else before[i];
        if f.hasOpArray && f.table != null {
          AgreesAfter(before[i], f.cvs, f.vars, slots[i], f.table.slots, f.table == t, name, i >= s);
        }
      }
      assert AllCoherent(frames) <==> forall i :: 0 <= i < |frames| ==> frames[i].Coherent();
    }

    /** The frames further out than s work on other tables than the current frame does. */
    lemma BlockEnds(s: nat)
      requires Wf() && s < |frames| && activeTable != null && (s > 0 ==> frames[s - 1].table != activeTable)
      ensures forall i :: 0 <= i < s ==> frames[i].table != activeTable
    {
    }

    /** Before an unset: a frame on the table has the name cached, and between it and the
        current frame is one on another table. */
    ghost predicate Stranded(name: string, target: Table)
      reads this`frames, frames`cvs, frames`table
    {
      StrandedIn(Caches(frames), name, target)
    }

    /** UNSET_VAR of the variable of any name in table target: forgets its slot in the
        current frame, whatever its table, and in the frames around it as long as they
        work on target, up to frame s. That leaves every cache right just when none was
        stranded; in particular when target is the table of the current frame. */
    method UnsetByName(name: string, target: Table) returns (ghost s: nat)
      requires Valid()
      modifies frames`cvs, target`slots
      ensures Wf() && Sized(frames) && s < |frames|
      ensures target.slots == old(target.slots) - {name}
      ensures name !in old(target.slots) ==> Valid() && Caches(frames) == old(Caches(frames))
      ensures name in old(target.slots) ==>
        && Caches(frames) == Forgotten(old(Caches(frames)), frames, name, s, |frames|)
        && Share(frames, target, s, |frames| - 1)
        && (s > 0 ==> frames[s - 1].table != target)
      ensures Valid() <==> !old(Stranded(name, target))
      ensures target == activeTable ==> Valid()
    {
      hide *;
      ValidHas();
      WfIs();
      NotStranded(name, target);
      s := |frames| - 1;
      if name in target.slots {
        s := UnsetPresent(name, target);
      } else {
        NothingToRemove(target.slots, name);
      }
    }

    method UnsetPresent(name: string, target: Table) returns (ghost s: nat)
      requires Wf() && Sized(frames) && AllCoherent(frames)
      modifies frames`cvs, target`slots
      ensures Wf() && Sized(frames) && s < |frames|
      ensures target.slots == old(target.slots) - {name}
      ensures Caches(frames) == Forgotten(old(Caches(frames)), frames, name, s, |frames|)
      ensures Share(frames, target, s, |frames| - 1) && (s > 0 ==> frames[s - 1].table != target)
      ensures Valid() <==> !old(Stranded(name, target))
    {
      hide *;
      s := RemoveAndForget(name, target);
      ValidIff();
    }

    lemma StrandedIs(name: string, target: Table)
      ensures Stranded(name, target) <==> StrandedIn(Caches(frames), name, target)
    {
    }

    /** None is stranded for a name that the table has not, or for the current table. */
    lemma NotStranded(name: string, target: Table)
      requires Valid()
      ensures name !in target.slots || target == activeTable ==> !Stranded(name, target)
    {
      ValidHas();
      hide Wf, Chain, Distinct, Included, Unique;
      forall i: nat | i < |frames| && HasOn(Caches(frames), i, name, target) ensures name in target.slots {
        assert frames[i].Coherent() && frames[i].cvs == Caches(frames)[i];
      }
      assert frames[|frames| - 1].table == activeTable;
    }

    lemma ValidIff()
      requires Wf()
      ensures Valid() <==> AllCoherent(frames)
    {
      hide Frame.Coherent, Contiguous, Included;
    }

    /** Frame i forgets name if it works on the table it was unset in. */
    ghost predicate ForgottenOn(before: seq<Cache>, name: string, t: Table)
      requires |before| == |frames|
      reads this`frames, frames`cvs, frames`table
    {
      forall i :: 0 <= i < |frames| ==>
        frames[i].cvs == if frames[i].table == t then WithoutIn(frames[i], before[i], name) else before[i]
    }

    lemma ForgottenIsOn(before: seq<Cache>, name: string, s: nat)
      requires Wf() && |before| == |frames| && activeTable != null && s < |frames|
      requires Share(frames, activeTable, s, |frames| - 1) && (s > 0 ==> frames[s - 1].table != activeTable)
      requires Caches(frames) == Forgotten(before, frames, name, s, |frames|)
      ensures ForgottenOn(before, name, activeTable)
    {
      BlockEnds(s);
      hide Wf, Without;
      forall i | 0 <= i < |frames| ensures frames[i].cvs ==
        (if frames[i].table == activeTable then WithoutIn(frames[i], before[i], name) else before[i])
      {
        assert frames[i].cvs == Caches(frames)[i];
        assert frames[i].table == activeTable <==> i >= s by {
          assert activeTable == frames[|frames| - 1].table by { WfTop(); }
        }
      }
    }

    lemma WfTop()
      requires Wf()
      ensures activeTable == frames[|frames| - 1].table
    {
    }

    /** The loop of UNSET_VAR that starts at the caller of the current frame. */
    method ForgetFromCaller(name: string) returns (ghost s: nat)
      requires Wf() && Sized(frames) && activeTable != null
      modifies frames`cvs
      ensures Sized(frames) && s < |frames|
      ensures Caches(frames) == Forgotten(old(Caches(frames)), frames, name, s, |frames| - 1)
      ensures Share(frames, activeTable, s, |frames| - 1) && (s > 0 ==> frames[s - 1].table != activeTable)
    {
      OuterChain();
      hide *;
      s := ForgetSharing(current.prev, activeTable, name, frames, |frames| - 1);
    }

    method ForgetQuick(v: nat, name: string)
      requires Wf() && Sized(frames) && activeTable != null && current.hasOpArray
      requires v < |current.vars| && current.vars[v] == name
      modifies frames`cvs
      ensures Sized(frames) && ForgottenOn(old(Caches(frames)), name, activeTable)
    {
      hide *;
      ghost var cs := Caches(frames);
      ghost var s := ForgetFromCaller(name);
      LastForgotten(cs, Caches(frames), name, s);
      ForgetIndex(v, name);
      ForgottenIsOn(cs, name, s);
    }

    lemma OuterChain()
      requires Wf()
      ensures Chain(current.prev, frames[..|frames| - 1]) && Distinct(frames)
    {
    }

    method ForgetIndex(v: nat, name: string)
      requires Wf() && Sized(frames) && current.hasOpArray && v < |current.vars| && current.vars[v] == name
      modifies current`cvs
      ensures Sized(frames)
      ensures Caches(frames) == old(Caches(frames))[|frames| - 1 := WithoutIn(current, old(current.cvs), name)]
    {
      hide Contiguous, Included;
      current.cvs := current.cvs[v := None];
      assert current.cvs == WithoutIn(current, old(current.cvs), name);
    }

    lemma LastForgotten(cs: seq<Cache>, cs1: seq<Cache>, name: string, s: nat)
      requires Wf() && |cs| == |frames| && s < |frames| && cs1 == Forgotten(cs, frames, name, s, |frames| - 1)
      ensures cs1[|frames| - 1 := WithoutIn(current, cs1[|frames| - 1], name)] == Forgotten(cs, frames, name, s, |frames|)
    {
      hide Contiguous, Included, Without;
    }

    method UnsetLocal(v: nat, name: string)
      requires Valid() && current.hasOpArray && v < |current.vars| && current.vars[v] == name && activeTable == null
      modifies frames`cvs
      ensures Valid()
      ensures Caches(frames) == old(Caches(frames))[|frames| - 1 := WithoutIn(current, old(current.cvs), name)]
      ensures current.cvs == WithoutIn(current, old(current.cvs), name)
    {
      ForgetIndex(v, name);
      hide Contiguous, Included, Without, Agrees;
      forall i | 0 <= i < |frames| ensures frames[i].Coherent() {
        assert old(frames[i].Coherent()) && frames[i].cvs == Caches(frames)[i];
      }
    }

    method UnsetFound(v: nat, name: string)
      requires Valid() && current.hasOpArray && v < |current.vars| && current.vars[v] == name && activeTable != null
      modifies frames`cvs, activeTable`slots
      ensures Valid() && activeTable.slots == old(activeTable.slots) - {name}
      ensures ForgottenOn(old(Caches(frames)), name, activeTable)
    {
      ValidHas();
      hide *;
      ForgetFound(v, name);
      ValidIs();
    }

    method ForgetFound(v: nat, name: string)
      requires Wf() && Sized(frames) && AllCoherent(frames)
      requires current.hasOpArray && v < |current.vars| && current.vars[v] == name && activeTable != null
      modifies frames`cvs, activeTable`slots
      ensures Wf() && AllCoherent(frames) && activeTable.slots == old(activeTable.slots) - {name}
      ensures ForgottenOn(old(Caches(frames)), name, activeTable)
    {
      hide *;
      ghost var before := Caches(frames);
      ghost var slots := RemoveFrom(name, activeTable);
      ForgetQuick(v, name);
      StayCoherent(before, slots, name, activeTable);
    }

    method UnsetAbsent(v: nat, name: string)
      requires Valid() && current.hasOpArray && v < |current.vars| && current.vars[v] == name
      requires activeTable != null && name !in activeTable.slots
      modifies frames`cvs
      ensures Valid() && ForgottenOn(old(Caches(frames)), name, activeTable)
    {
      assert old(current.Coherent());
      AbsentNotCached(name);
      ForgetIndex(v, name);
      hide Contiguous, Included, Without, Agrees, Has, Unique;
      forall i | 0 <= i < |frames| ensures frames[i].cvs == old(frames[i].cvs) && frames[i].Coherent() {
        assert old(frames[i].Coherent()) && frames[i].cvs == Caches(frames)[i];
      }
    }

    lemma AbsentNotCached(name: string)
      requires Valid() && activeTable != null && name !in activeTable.slots
      ensures forall i :: 0 <= i < |frames| && frames[i].table == activeTable ==>
        WithoutIn(frames[i], frames[i].cvs, name) == frames[i].cvs
    {
      forall i | 0 <= i < |frames| && frames[i].table == activeTable
        ensures WithoutIn(frames[i], frames[i].cvs, name) == frames[i].cvs
      {
        var f := frames[i];
        assert f.Coherent();
        if f.hasOpArray {
          AgreesWithout(f.cvs, f.vars, activeTable.slots, name);
        }
      }
    }

    lemma OneForgotten(v: nat)
      requires Valid() && current.hasOpArray && v < |current.vars|
      ensures WithoutIn(current, current.cvs, current.vars[v]) == current.cvs[v := None]
    {
      ValidHas();
      WithoutIs(current.cvs, current.vars, v);
    }

    /** UNSET_VAR of compiled variable v of the current frame. All frames on its symbol
        table forget its slot; without one it is only forgotten here. */
    method UnsetQuick(v: nat)
      requires Valid() && current.hasOpArray && v < |current.vars|
      modifies frames`cvs, activeTable
      ensures Valid()
      ensures activeTable != null ==> activeTable.indices == old(activeTable.indices)
      ensures activeTable != null ==>
        && activeTable.slots == old(activeTable.slots) - {current.vars[v]}
        && ForgottenOn(old(Caches(frames)), current.vars[v], activeTable)
      ensures activeTable == null ==>
        && Caches(frames) == old(Caches(frames))[|frames| - 1 := WithoutIn(current, old(current.cvs), current.vars[v])]
        && current.cvs == old(current.cvs)[v := None]
    {
      hide *;
      var name := current.vars[v];
      if activeTable == null {
        OneForgotten(v);
        UnsetLocal(v, name);
      } else if name in activeTable.slots {
        UnsetFound(v, name);
      } else {
        UnsetAbsent(v, name);
        assert activeTable.slots == activeTable.slots - {name};
      }
    }

    /** The frames from e on forget name if they work on t. */
    ghost predicate ForgottenFrom(before: seq<Cache>, name: string, t: Table, e: nat)
      requires |before| == |frames|
      reads this`frames, frames`cvs, frames`table
    {
      forall i :: 0 <= i < |frames| ==>
        frames[i].cvs == if i >= e && frames[i].table == t then WithoutIn(frames[i], before[i], name) else before[i]
    }

    method ForgetOne(f: Frame, name: string, t: Table, ghost before: seq<Cache>, ghost e: nat)
      requires Sized(frames) && Distinct(frames) && |before| == |frames| && 0 < e <= |frames| && f == frames[e - 1]
      requires ForgottenFrom(before, name, t, e)
      modifies f`cvs
      ensures Sized(frames) && ForgottenFrom(before, name, t, e - 1)
    {
      hide Without, Unique;
      if f.hasOpArray && f.table == t {
        ForgetIn(f, name, frames, e - 1);
      }
    }

    /** The loop of UNSET_DIM over $GLOBALS: looks at every frame. */
    method ForgetEverywhere(name: string, t: Table)
      requires Wf() && Sized(frames)
      modifies frames`cvs
      ensures Sized(frames) && ForgottenOn(old(Caches(frames)), name, t)
    {
      var ex := current;
      ghost var e, before := |frames|, Caches(frames);
      assert frames[..e] == frames;
      hide Without, Unique, Contiguous, Included;
      while ex != null
        invariant 0 <= e <= |frames| && Chain(ex, frames[..e]) && Sized(frames) && ForgottenFrom(before, name, t, e)
        decreases e
      {
        assert frames[..e][..e - 1] == frames[..e - 1];
        ForgetOne(ex, name, t, before, e);
        e := e - 1;
        ex := ex.prev;
      }
    }

    method ForgetElement(name: string)
      requires Wf() && Sized(frames) && AllCoherent(frames)
      modifies frames`cvs, globals`slots
      ensures Wf() && AllCoherent(frames) && globals.slots == old(globals.slots) - {name}
      ensures ForgottenOn(old(Caches(frames)), name, globals)
    {
      hide *;
      ghost var before := Caches(frames);
      ghost var slots := RemoveFrom(name, globals);
      ForgetEverywhere(name, globals);
      StayCoherent(before, slots, name, globals);
    }

    /** UNSET_DIM of an element of $GLOBALS, which deletes from the table of globals as from
        any array: a name that is the text of a long is an index there, and no variable.
        All frames on the table forget the name all the same. */
    method UnsetGlobal(name: string, w: Width)
      requires Valid()
      modifies frames`cvs, globals
      ensures Valid()
      ensures Normal(name + [NUL], w).Name? ==>
        && globals.slots == old(globals.slots) - {name} && globals.indices == old(globals.indices)
        && (if name in old(globals.slots) then ForgottenOn(old(Caches(frames)), name, globals)
            else Caches(frames) == old(Caches(frames)))
      ensures Normal(name + [NUL], w).Index? ==>
        var h := Normal(name + [NUL], w).h;
        && globals.slots == old(globals.slots) && globals.indices == old(globals.indices) - {h}
        && (if h in old(globals.indices) then ForgottenOn(old(Caches(frames)), name, globals)
            else Caches(frames) == old(Caches(frames)))
    {
      if IsIndex(name + [NUL], w) {
        UnsetIndex(name, w.Unsigned(Number(name + [NUL])));
      } else {
        UnsetElement(name);
      }
    }

    method UnsetElement(name: string)
      requires Valid()
      modifies frames`cvs, globals`slots
      ensures Valid() && globals.slots == old(globals.slots) - {name}
      ensures if name in old(globals.slots) then ForgottenOn(old(Caches(frames)), name, globals)
              else Caches(frames) == old(Caches(frames))
    {
      ValidHas();
      hide *;
      if name in globals.slots {
        ForgetElement(name);
        ValidIs();
      } else {
        assert globals.slots == globals.slots - {name};
      }
    }

    method UnsetIndex(name: string, h: nat)
      requires Valid()
      modifies frames`cvs, globals`indices
      ensures Valid() && globals.indices == old(globals.indices) - {h}
      ensures if h in old(globals.indices) then ForgottenOn(old(Caches(frames)), name, globals)
              else Caches(frames) == old(Caches(frames))
    {
      ValidHas();
      hide *;
      if h in globals.indices {
        globals.indices := globals.indices - {h};
        ForgetWhatStays(name);
        ValidIs();
      } else {
        assert globals.indices == globals.indices - {h};
      }
    }

    /** UNSET_DIM of $GLOBALS with an integer, boolean or double offset: the slots of
        variables are found by name, so no frame has anything to forget. */
    method UnsetNumber(h: nat)
      requires Valid()
      modifies globals`indices
      ensures Valid() && globals.indices == old(globals.indices) - {h}
    {
      globals.indices := globals.indices - {h};
    }

    /** Some frame on the table has the name cached. */
    ghost predicate Cached(name: string, t: Table)
      reads this`frames, frames`cvs, frames`table
    {
      exists i: nat :: i < |frames| && HasOn(Caches(frames), i, name, t)
    }

    /** UNSET_DIM of $GLOBALS with a null offset: deletes the variable of the empty name,
        which no frame forgets. That leaves every cache right just when none had it. */
    method UnsetNull()
      requires Valid()
      modifies globals`slots
      ensures globals.slots == old(globals.slots) - {""}
      ensures Valid() <==> !old(Cached("", globals))
    {
      ValidHas();
      WfIs();
      hide *;
      RemoveOnly("", globals);
      ValidIff();
    }

    method RemoveOnly(name: string, t: Table)
      requires Wf() && Sized(frames) && AllCoherent(frames)
      modifies t`slots
      ensures Wf() && t.slots == old(t.slots) - {name}
      ensures AllCoherent(frames) <==> !old(Cached(name, t))
    {
      hide *;
      ghost var slots := RemoveFrom(name, t);
      CoherentUnlessCached(slots, name, t);
    }

    lemma CoherentUnlessCached(slots: seq<map<string, nat>>, name: string, t: Table)
      requires Removed(Caches(frames), slots, name, t) && Sized(frames)
      ensures AllCoherent(frames) <==> !Cached(name, t)
    {
      hide Agrees, Has, Without, Unique;
      forall i: nat | i < |frames| ensures frames[i].Coherent() <==> !HasOn(Caches(frames), i, name, t) {
        var f := frames[i];
        if f.hasOpArray && f.table != null {
          AgreesWithout(f.cvs, f.vars, slots[i], name);
        }
      }
      assert AllCoherent(frames) <==> forall i :: 0 <= i < |frames| ==> frames[i].Coherent();
    }

    /** Looks for a frame on the table that has the name cached. */
    method IsCached(name: string, t: Table) returns (found: bool)
      requires Valid()
      ensures found <==> Cached(name, t)
    {
      ValidHas();
      hide Wf, Has, Unique, Contiguous, Included;
      found := false;
      var ex := current;
      ghost var e := |frames|;
      assert frames[..e] == frames;
      while ex != null
        invariant 0 <= e <= |frames| && Chain(ex, frames[..e])
        invariant found <==> exists i: nat :: e <= i < |frames| && HasOn(Caches(frames), i, name, t)
        decreases e
      {
        assert frames[..e][..e - 1] == frames[..e - 1];
        e := e - 1;
        if ex.hasOpArray && ex.table == t && Has(ex.cvs, ex.vars, name) {
          assert HasOn(Caches(frames), e, name, t);
          found := true;
        }
        ex := ex.prev;
      }
    }

    /** Forgetting a name that the table keeps. */
    method ForgetWhatStays(name: string)
      requires Wf() && Sized(frames) && AllCoherent(frames)
      modifies frames`cvs
      ensures Wf() && AllCoherent(frames) && ForgottenOn(old(Caches(frames)), name, globals)
    {
      hide *;
      ghost var before := Caches(frames);
      AgreedBefore();
      ForgetEverywhere(name, globals);
      StayCoherentKept(before, name);
    }

    /** The caches agree with the tables. */
    ghost predicate AllAgree(cs: seq<Cache>)
      reads this`frames, frames`table, set f | f in frames :: f.table
    {
      && |cs| == |frames|
      && forall i :: 0 <= i < |frames| && frames[i].hasOpArray && frames[i].table != null ==>
        |cs[i]| == |frames[i].vars| && Agrees(cs[i], frames[i].vars, frames[i].table.slots)
    }

    lemma AgreedBefore()
      requires AllCoherent(frames)
      ensures AllAgree(Caches(frames))
    {
      assert forall i :: 0 <= i < |frames| ==> frames[i].Coherent();
    }

    lemma StayCoherentKept(before: seq<Cache>, name: string)
      requires AllAgree(before) && ForgottenOn(before, name, globals) && Sized(frames)
      ensures AllCoherent(frames)
    {
      hide Without, Agrees, Has, Unique;
      forall i | 0 <= i < |frames| ensures frames[i].Coherent() {
        var f := frames[i];
        if f.hasOpArray && f.table != null {
          AgreesWithout(before[i], f.vars, f.table.slots, name);
        }
      }
    }

    /** ZEND_ISSET_ISEMPTY_VAR of a compiled variable: the slot to test, if it exists. The
        cache is trusted when it has one; the answer is still that of the symbol table. */
    method IsSet(v: nat) returns (slot: Option<nat>)
      requires Valid() && current.hasOpArray && v < |current.vars|
      ensures slot == if activeTable == null then current.cvs[v]
                      else if current.vars[v] in activeTable.slots then Some(activeTable.slots[current.vars[v]])
                      else None
    {
      assert current.Coherent();
      slot := None;
      if current.cvs[v].Some? {
        slot := current.cvs[v];
      } else if activeTable != null {
        if current.vars[v] in activeTable.slots {
          slot := Some(activeTable.slots[current.vars[v]]);
        }
      }
    }

    /** The lookup of a compiled variable, which caches the slot it finds and, for
        writing, makes slot new if there is none. */
    method Fetch(v: nat, write: bool, new_: nat)
      requires Valid() && current.hasOpArray && v < |current.vars|
      modifies current`cvs, activeTable
      ensures Valid()
      ensures activeTable != null ==> activeTable.indices == old(activeTable.indices)
      ensures activeTable != null ==>
        activeTable.slots == if write && old(current.cvs[v]) == None && current.vars[v] !in old(activeTable.slots)
          then old(activeTable.slots)[current.vars[v] := new_] else old(activeTable.slots)
      ensures current.cvs == old(current.cvs)[v :=
        if old(current.cvs[v]).Some? then old(current.cvs[v])
        else if activeTable == null then (if write then Some(new_) else None)
        else if current.vars[v] in activeTable.slots then Some(activeTable.slots[current.vars[v]]) else None]
    {
      assert current.Coherent();
      hide Contiguous, Included, Chain, Distinct;
      var name := current.vars[v];
      if current.cvs[v] == None {
        if activeTable == null {
          if write {
            current.cvs := current.cvs[v := Some(new_)];
          }
        } else {
          if write && name !in activeTable.slots {
            activeTable.slots := activeTable.slots[name := new_];
          }
          if name in activeTable.slots {
            current.cvs := current.cvs[v := Some(activeTable.slots[name])];
          }
        }
      }
    }

    /** ZEND_CATCH: variable v takes the exception, in its slot if it has one. */
    method Catch(v: nat, new_: nat)
      requires Valid() && current.hasOpArray && v < |current.vars|
      modifies current`cvs, activeTable
      ensures Valid()
      ensures activeTable != null ==> activeTable.indices == old(activeTable.indices)
      ensures activeTable != null ==>
        activeTable.slots == if current.vars[v] in old(activeTable.slots) then old(activeTable.slots)
          else old(activeTable.slots)[current.vars[v] := new_]
      ensures current.cvs == old(current.cvs)[v :=
        Some(if activeTable == null then new_ else activeTable.slots[current.vars[v]])]
    {
      hide Contiguous, Included, Chain, Distinct;
      if activeTable == null {
        assert current.Coherent();
        current.cvs := current.cvs[v := Some(new_)];
      } else {
        assert current.Coherent();
        var name := current.vars[v];
        if name !in activeTable.slots {
          activeTable.slots := activeTable.slots[name := new_];
        }
        current.cvs := current.cvs[v := Some(activeTable.slots[name])];
      }
    }

    /** Makes f the current frame: f starts on no symbol table, or on that of its caller. */
    method Enter(f: Frame)
      requires Valid() && f.prev == current && f !in frames && f.Coherent()
      requires f.table == if f.included then activeTable else null
      requires f.included && f.table == null ==> !f.hasOpArray
      modifies this`current, this`activeTable, this`frames
      ensures Valid() && frames == old(frames) + [f] && current == f && activeTable == f.table
    {
      hide *;
      ValidHas();
      Pushed(frames, f);
      activeTable := f.table;
      current := f;
      ghost var outer := frames;
      frames := frames + [f];
      WfIs();
      CoherentPushed(outer, f);
    }

    /** The call of a function: no symbol table. */
    method Call(vars: seq<string>)
      requires Valid() && Unique(vars)
      modifies this`current, this`activeTable, this`frames
      ensures Valid() && frames == old(frames) + [current] && fresh(current)
      ensures current.vars == vars && current.hasOpArray && !current.included && activeTable == null
      ensures current.prev == old(current) && forall i :: 0 <= i < |vars| ==> current.cvs[i] == None
    {
      var f := new Frame(vars, true, false, current, null);
      assert f.Coherent();
      hide *;
      Enter(f);
    }

    /** The call of a builtin, which has no op_array. */
    method Builtin()
      requires Valid()
      modifies this`current, this`activeTable, this`frames
      ensures Valid() && frames == old(frames) + [current] && fresh(current)
      ensures !current.hasOpArray && current.vars == [] && activeTable == old(activeTable)
      ensures current.prev == old(current) && current.included
    {
      ValidHas();
      var f := new Frame([], false, true, current, activeTable);
      assert f.Coherent();
      hide *;
      Enter(f);
    }

    /** An include or eval: makes a symbol table for the current frame if it has none, and
        starts the file on it. */
    method Include(vars: seq<string>)
      requires Valid() && Unique(vars) && current.hasOpArray
      modifies this`current, this`activeTable, this`frames, current`table
      ensures Valid() && frames == old(frames) + [current] && fresh(current)
      ensures current.vars == vars && current.hasOpArray && current.included
      ensures current.prev == old(current) && forall i :: 0 <= i < |vars| ==> current.cvs[i] == None
      ensures activeTable != null && (old(activeTable) == null ==> fresh(activeTable))
      ensures current.table == activeTable == old(current).table
      ensures old(activeTable) != null ==> activeTable == old(activeTable)
      ensures old(activeTable) == null ==> Holds(activeTable.slots, old(current.cvs), old(current).vars)
    {
      if activeTable == null {
        Rebuild();
      }
      ValidHas();
      var f := new Frame(vars, true, true, current, activeTable);
      assert f.Coherent();
      hide *;
      Enter(f);
    }

    /** zend_rebuild_symbol_table, where the current frame is that of a function: its
        cached variables become the entries of a new table. */
    method Rebuild()
      requires Valid() && current.hasOpArray && activeTable == null
      modifies this`activeTable, current`table
      ensures Valid() && frames == old(frames) && current == old(current)
      ensures activeTable != null && fresh(activeTable) && current.table == activeTable
      ensures activeTable.indices == {} && Holds(activeTable.slots, current.cvs, current.vars)
    {
      ValidHas();
      var t := new Table();
      assert current.Coherent();
      for i := 0 to |current.vars|
        modifies t
        invariant fresh(t) && t.indices == {} && Agrees(current.cvs[..i], current.vars[..i], t.slots)
        invariant forall name <- t.slots :: name in current.vars[..i]
        invariant forall j :: 0 <= j < i ==> (current.cvs[j].Some? <==> current.vars[j] in t.slots)
      {
        if current.cvs[i].Some? {
          t.slots := t.slots[current.vars[i] := current.cvs[i].value];
        }
      }
      assert current.cvs[..|current.vars|] == current.cvs && current.vars[..|current.vars|] == current.vars;
      StartTable(t);
    }

    /** The current frame, which had no symbol table, gets the new table t. */
    method StartTable(t: Table)
      requires Valid() && current.hasOpArray && activeTable == null && Agrees(current.cvs, current.vars, t.slots)
      requires forall f <- frames :: f.table != t
      modifies this`activeTable, current`table
      ensures Valid() && activeTable == t
    {
      hide Agrees, Unique;
      assert AllCoherent(frames);
      ghost var n := |frames| - 1;
      current.table, activeTable := t, t;
      assert Included(frames[..n]);
      assert Contiguous(frames);
      forall i | 0 <= i <= n ensures frames[i].Coherent() {
        assert old(frames[i].Coherent());
      }
    }

    /** The end of the current frame: a function's own symbol table is cleaned. */
    method Leave()
      requires Valid() && |frames| > 1
      modifies this`current, this`activeTable, this`frames, activeTable
      ensures Valid() && frames == old(frames)[..|old(frames)| - 1]
      ensures frames != [] && activeTable == frames[|frames| - 1].table
      ensures old(activeTable) != null ==>
        old(activeTable).slots == (if old(current).included then old(activeTable.slots) else map[])
        && old(activeTable).indices == (if old(current).included then old(activeTable.indices) else {})
      ensures old(current).included ==> activeTable == old(activeTable)
    {
      ghost var outer := frames[..|frames| - 1];
      CanLeave(outer);
      hide *;
      EndTable(outer, current.prev.table);
      current := current.prev;
      frames := outer;
      WfIs();
      ValidIs();
    }

    lemma CanLeave(outer: seq<Frame>)
      requires Valid() && |frames| > 1 && outer == frames[..|frames| - 1]
      ensures outer != [] && current != null && current.prev != null && current.prev == outer[|outer| - 1]
      ensures Chain(current.prev, outer) && Distinct(outer) && Contiguous(outer) && Included(outer) && AllCoherent(outer)
      ensures if current.included then activeTable == current.prev.table
              else activeTable != null ==> forall f <- outer :: f.table != activeTable
    {
      ValidHas();
      Popped(frames);
      hide *;
      ChainTop(current.prev, outer);
    }

    /** activeTable becomes t, after a function has cleaned its own. */
    method EndTable(ghost outer: seq<Frame>, t: Table?)
      requires current != null && AllCoherent(outer)
      requires if current.included then activeTable == t
               else activeTable != null ==> forall f <- outer :: f.table != activeTable
      modifies this`activeTable, activeTable
      ensures AllCoherent(outer) && activeTable == t
      ensures old(activeTable) != null ==>
        old(activeTable).slots == (if current.included then old(activeTable.slots) else map[])
        && old(activeTable).indices == (if current.included then old(activeTable.indices) else {})
    {
      hide *;
      if !current.included {
        CleanTable(outer);
        activeTable := t;
      }
    }

    method CleanTable(ghost outer: seq<Frame>)
      requires AllCoherent(outer) && (activeTable != null ==> forall f <- outer :: f.table != activeTable)
      modifies activeTable
      ensures AllCoherent(outer)
      ensures activeTable != null ==> activeTable.slots == map[] && activeTable.indices == {}
    {
      hide Frame.Coherent;
      if activeTable != null {
        activeTable.slots, activeTable.indices := map[], {};
      }
    }

    lemma ValidIs()
      requires Wf() && AllCoherent(frames)
      ensures Valid()
    {
    }

    lemma ValidHas()
      requires Valid()
      ensures Chain(current, frames) && Distinct(frames) && frames != [] && current != null && activeTable == current.table
      ensures Contiguous(frames) && Included(frames) && AllCoherent(frames) && Sized(frames)
      ensures current == frames[|frames| - 1] && current.Coherent()
    {
      hide Contiguous, Included, Agrees, Unique;
    }

    lemma WfIs()
      requires Chain(current, frames) && Distinct(frames) && frames != [] && current != null && activeTable == current.table
      requires Contiguous(frames) && Included(frames)
      ensures Wf()
    {
    }

    lemma CoherentPushed(outer: seq<Frame>, f: Frame)
      requires Wf() && AllCoherent(outer) && f.Coherent() && frames == outer + [f]
      ensures Valid()
    {
    }
  }

  lemma Pushed(fs: seq<Frame>, f: Frame)
    requires Chain(f.prev, fs) && Distinct(fs) && Contiguous(fs) && Included(fs) && f !in fs && fs != []
    requires f.table == if f.included then fs[|fs| - 1].table else null
    requires f.included && f.table == null ==> !f.hasOpArray
    ensures Chain(f, fs + [f]) && Distinct(fs + [f]) && Contiguous(fs + [f]) && Included(fs + [f])
  {
    assert (fs + [f])[..|fs|] == fs;
    ContiguousPushed(fs, f);
    hide Contiguous;
  }

  /** Without its innermost frame the chain is as good, and unless that frame was included
      no other works on its table. */
  lemma Popped(fs: seq<Frame>)
    requires |fs| > 1 && Chain(fs[|fs| - 1], fs) && Distinct(fs) && Contiguous(fs) && Included(fs) && AllCoherent(fs)
    ensures var n := |fs| - 1; var f := fs[n];
      && Chain(f.prev, fs[..n]) && Distinct(fs[..n]) && Contiguous(fs[..n]) && Included(fs[..n]) && AllCoherent(fs[..n])
      && (if f.included then f.table == fs[n - 1].table else f.table != null ==> forall g <- fs[..n] :: g.table != f.table)
  {
    var n := |fs| - 1;
    var f := fs[n];
    if !f.included && f.table != null {
      NotShared(fs);
    }
    hide Frame.Coherent;
    forall i, j, k | 0 <= i < j < k < n && fs[..n][i].table != null && fs[..n][i].table == fs[..n][k].table
      ensures fs[..n][j].table == fs[..n][i].table
    {
      assert fs[j].table == fs[i].table;
    }
  }

  lemma NotShared(fs: seq<Frame>)
    requires |fs| > 1 && Contiguous(fs) && fs[|fs| - 1].table != null && fs[|fs| - 2].table != fs[|fs| - 1].table
    ensures forall g <- fs[..|fs| - 1] :: g.table != fs[|fs| - 1].table
  {
  }

  lemma ContiguousPushed(fs: seq<Frame>, f: Frame)
    requires Contiguous(fs) && fs != [] && (f.table == null || f.table == fs[|fs| - 1].table)
    ensures Contiguous(fs + [f])
  {
    var gs := fs + [f];
    forall i, j, k | 0 <= i < j < k < |gs| && gs[i].table != null && gs[i].table == gs[k].table
      ensures gs[j].table == gs[i].table
    {
      if k == |fs| && j < |fs| - 1 {
        assert fs[i].table == fs[|fs| - 1].table;
      }
    }
  }
}
