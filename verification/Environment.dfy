/** What a program can tell about its variables: their values, and which of them are
    references to each other. */
module Environment {
  import opened Wrappers

  datatype Value = Null | Bool(b: bool) | Long(n: int) | Str(s: string)

  /** The places that may hold a value: compiled variables of a frame, the argument
      stack, temporaries, and the executor's own pointer to the uninitialized value. */
  datatype Slot = Cv(frame: nat, index: nat) | Arg(pos: nat) | Temp(id: nat) | Uninitialized

  /** What a program can tell: the value in each slot, and for each slot the slots it is
      a reference with, itself included; the empty set for a slot that is no reference. */
  datatype Env = Env(vals: map<Slot, Value>, refs: map<Slot, set<Slot>>)

  /** The slots that change when s is written. */
  function Reach(e: Env, s: Slot): set<Slot>
    requires s in e.refs
  {
    e.refs[s] + {s}
  }

  /** t, a reference of s, has the value and the references of s. */
  ghost predicate Tied(e: Env, s: Slot, t: Slot)
    requires s in e.refs && s in e.vals
  {
    t in e.refs[s] ==>
      && s in e.refs[s]
      && t in e.refs && t in e.vals && e.refs[t] == e.refs[s] && e.vals[t] == e.vals[s]
  }

  /** References are symmetric and transitive and agree on their value. */
  ghost predicate Coherent(e: Env) {
    && e.vals.Keys == e.refs.Keys
    && forall s, t :: s in e.refs ==> Tied(e, s, t)
  }

  /** The uninitialized value is null and no variable refers to it. */
  ghost predicate Grounded(e: Env) {
    && Uninitialized in e.vals && e.vals[Uninitialized] == Null
    && Uninitialized in e.refs && e.refs[Uninitialized] == {}
    && forall t <- e.refs :: Uninitialized !in e.refs[t]
  }

  /** s is removed; a reference left alone stays one or not. */
  function Remove(e: Env, s: Slot, clears: bool): Env {
    Env(map t | t in e.vals && t != s :: e.vals[t],
        map t | t in e.refs && t != s ::
          var r := e.refs[t] - {s};
          if clears && s in e.refs[t] && r == {t} then {} else r)
  }

  /** s becomes a plain variable with value v. */
  function Bind(e: Env, s: Slot, v: Value): Env {
    Env(e.vals[s := v], e.refs[s := {}])
  }

  /** s starts as an undefined variable if there is none. */
  function Define(e: Env, s: Slot): Env {
    if s in e.vals then e else Bind(e, s, Null)
  }

  /** The value read from s; an undefined variable reads as null. */
  function ValueOf(e: Env, s: Slot): Value {
    if s in e.vals then e.vals[s] else Null
  }

  /** s becomes a reference, if only with itself. */
  function MakeRef(e: Env, s: Slot): Env
    requires s in e.refs
  {
    if e.refs[s] == {} then e.(refs := e.refs[s := {s}]) else e
  }

  /** The new slot t takes what s holds: joins its references, or copies its value. */
  function Share(e: Env, s: Slot, t: Slot): Env
    requires s in e.vals && s in e.refs
  {
    if e.refs[s] == {} then Bind(e, t, e.vals[s])
    else
      var all := e.refs[s] + {t};
      Env(e.vals[t := e.vals[s]],
          (map x | x in e.refs :: if x in all then all else e.refs[x])[t := all])
  }

  /** Writing v through s is seen by exactly the references of s. */
  function Write(e: Env, s: Slot, v: Value): Env
    requires s in e.refs
  {
    e.(vals := map t | t in e.vals :: if t in Reach(e, s) then v else e.vals[t])
  }

  lemma CoherentRemove(e: Env, s: Slot, clears: bool)
    requires Coherent(e)
    ensures Coherent(Remove(e, s, clears))
  {
    var n := Remove(e, s, clears);
    forall x, y | x in n.refs ensures Tied(n, x, y) {
      assert Tied(e, x, y) && Tied(e, x, s);
    }
  }

  lemma CoherentBind(e: Env, s: Slot, v: Value)
    requires Coherent(e) && s !in e.vals
    ensures Coherent(Bind(e, s, v))
  {
    var n := Bind(e, s, v);
    forall x, y | x in n.refs ensures Tied(n, x, y) {
      assert x != s ==> Tied(e, x, y);
    }
  }

  lemma CoherentMakeRef(e: Env, s: Slot)
    requires Coherent(e) && s in e.refs
    ensures Coherent(MakeRef(e, s))
  {
    var n := MakeRef(e, s);
    forall x, y | x in n.refs ensures Tied(n, x, y) {
      assert Tied(e, x, y) && Tied(e, x, s);
    }
  }

  lemma CoherentShare(e: Env, s: Slot, t: Slot)
    requires Coherent(e) && s in e.refs && t !in e.refs
    ensures Coherent(Share(e, s, t))
  {
    if e.refs[s] == {} {
      CoherentBind(e, t, e.vals[s]);
    } else {
      var n := Share(e, s, t);
      forall x, y | x in n.refs ensures Tied(n, x, y) {
        assert Tied(e, s, x) && Tied(e, s, y);
        assert x != t ==> Tied(e, x, y) && Tied(e, x, s);
      }
    }
  }

  lemma CoherentWrite(e: Env, s: Slot, v: Value)
    requires Coherent(e) && s in e.refs
    ensures Coherent(Write(e, s, v))
  {
    var n := Write(e, s, v);
    forall x, y | x in n.refs ensures Tied(n, x, y) {
      assert Tied(e, x, y) && Tied(e, s, x) && Tied(e, s, y) && Tied(e, x, s);
    }
  }

  /** v is written through s, defined first if need be, and the new slot result takes
      what s then holds. */
  function Modified(e: Env, s: Slot, v: Value, result: Option<Slot>): Env
    requires e.vals.Keys == e.refs.Keys
  {
    var w := Write(Define(e, s), s, v);
    if result.Some? then Share(w, s, result.value) else w
  }

  lemma ModifiedIs(e: Env, s: Slot, v: Value, result: Option<Slot>)
    requires e.vals.Keys == e.refs.Keys
    ensures Modified(e, s, v, result)
      == if result.Some? then Share(Write(Define(e, s), s, v), s, result.value) else Write(Define(e, s), s, v)
  {
  }

  /** No operation on program variables touches the uninitialized value. */
  lemma StaysGrounded(e: Env, s: Slot, t: Slot, v: Value, clears: bool)
    requires Grounded(e) && s != Uninitialized && t != Uninitialized && e.vals.Keys == e.refs.Keys
    ensures Grounded(Remove(e, s, clears)) && Grounded(Bind(e, s, v)) && Grounded(Define(e, s))
    ensures s in e.refs ==> Grounded(MakeRef(e, s)) && Grounded(Share(e, s, t)) && Grounded(Write(e, s, v))
  {
  }
}
