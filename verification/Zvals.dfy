/** The handlers that pass, receive and change variables, on reference-counted values
    shared copy-on-write. */
module Zvals {
  import opened Wrappers
  import opened Environment
  import SharedZvals

  class Zval {
    var value: Value
    var refcount: nat
    var isRef: bool

    constructor (value: Value, refcount: nat)
      ensures this.value == value && this.refcount == refcount && !isRef
    {
      this.value, this.refcount, this.isRef := value, refcount, false;
    }
  }

  /** What a write does, to which slots. */
  lemma WriteIs(e: Env, s: Slot, v: Value)
    requires s in e.refs
    ensures var n := Write(e, s, v);
      && n.refs == e.refs && n.vals.Keys == e.vals.Keys
      && forall t <- e.vals :: n.vals[t] == if t == s || t in e.refs[s] then v else e.vals[t]
  {
  }

  class Variables {
    var slots: map<Slot, Zval>
    /** Whether the destructor resets is_ref on a value left with one holder. */
    const clears: bool
    /** Every value created so far. */
    ghost var created: set<Zval>

    ghost function Store(): SharedZvals.Store<Zval>
      reads this, created
    {
      SharedZvals.Store(slots, map z | z in created :: SharedZvals.Cell(z.value, z.refcount, z.isRef))
    }

    ghost predicate Valid()
      reads this, created
    {
      SharedZvals.Counted(Store()) && Grounded(SharedZvals.View(Store()))
    }

    /** What the program can tell. */
    ghost function View(): (e: Env)
      requires Valid()
      reads this, created
      ensures e.vals.Keys == e.refs.Keys == slots.Keys
      ensures forall s <- slots :: slots[s] in created && e.vals[s] == slots[s].value
    {
      SharedZvals.View(Store())
    }

    /** Variables are references of each other if they share a value that says so. */
    lemma RefsAre()
      requires Valid()
      ensures forall s <- slots, t :: t in View().refs[s] <==> t in slots && slots[t] == slots[s] && slots[s].isRef
    {
    }

    constructor (clears: bool)
      ensures Valid() && fresh(created) && this.clears == clears
      ensures View() == Env(map[Uninitialized := Null], map[Uninitialized := {}])
    {
      var z := new Zval(Null, 1);
      this.clears := clears;
      slots := map[Uninitialized := z];
      created := {z};
      new;
      assert SharedZvals.Holders(Store(), z) == {Uninitialized};
      assert View().vals == map[Uninitialized := Null];
      assert View().refs == map[Uninitialized := {}];
    }

    /** Z_DELREF on what s holds, which s forgets, or all of zval_ptr_dtor. */
    method DelRef(s: Slot, clears: bool)
      requires s in slots && slots[s] in created && slots[s].refcount > 0
      modifies this`slots, slots[s]
      ensures Store() == SharedZvals.Drop(old(Store()), s, clears)
    {
      var z := slots[s];
      z.refcount := z.refcount - 1;
      if clears && z.refcount == 1 {
        z.isRef := false;
      }
      slots := slots - {s};
    }

    /** Z_ADDREF on z, which s then holds. */
    method AddRef(s: Slot, z: Zval)
      requires z in created
      modifies this`slots, z
      ensures Store() == SharedZvals.Point(old(Store()), s, z)
    {
      z.refcount := z.refcount + 1;
      slots := slots[s := z];
    }

    /** ALLOC_ZVAL and initialization of a value that s then holds. */
    method Alloc(s: Slot, v: Value)
      modifies this`slots, this`created
      ensures s in slots && fresh(slots[s]) && slots == old(slots)[s := slots[s]]
      ensures created == old(created) + {slots[s]}
      ensures Store() == SharedZvals.Alloc(old(Store()), s, slots[s], v)
    {
      var z := new Zval(v, 1);
      slots := slots[s := z];
      created := created + {z};
    }

    method Set(z: Zval, v: Value, isRef: bool)
      requires z in created
      modifies z
      ensures z.value == v && z.isRef == isRef && z.refcount == old(z.refcount)
      ensures Store() == SharedZvals.Update(old(Store()), z, v, isRef)
    {
      z.value := v;
      z.isRef := isRef;
    }

    /** Z_DELREF or, with clears, zval_ptr_dtor on what s holds; s forgets it. */
    method Forget(s: Slot, clears: bool)
      requires Valid() && s in slots && s != Uninitialized
      modifies this`slots, created
      ensures Valid() && View() == Remove(old(View()), s, clears) && slots == old(slots) - {s}
    {
      SharedZvals.DropIsRemove(Store(), s, clears);
      StaysGrounded(View(), s, s, Null, clears);
      DelRef(s, clears);
    }

    /** Z_ADDREF on what s holds, which the new slot t then holds too. */
    method ShareInto(s: Slot, t: Slot)
      requires Valid() && s in slots && t !in slots && (s == Uninitialized ==> t != Uninitialized)
      modifies this`slots, created
      ensures Valid() && View() == Share(old(View()), s, t) && slots == old(slots)[t := old(slots[s])]
    {
      SharedZvals.PointIsShare(Store(), s, t);
      if s == Uninitialized {
        StaysGrounded(View(), t, t, Null, false);
      } else {
        StaysGrounded(View(), s, t, Null, false);
      }
      AddRef(t, slots[s]);
    }

    /** UNSET_VAR of a variable outside a symbol table, and the end of an argument. */
    method Release(s: Slot)
      requires Valid() && s in slots && s != Uninitialized
      modifies this`slots, created
      ensures Valid() && View() == Remove(old(View()), s, clears)
    {
      Forget(s, clears);
    }

    /** SEPARATE_ZVAL_IF_NOT_REF */
    method SeparateIfNotRef(s: Slot)
      requires Valid() && s in slots
      modifies this, created
      ensures Valid() && View() == old(View()) && fresh(created - old(created)) && slots.Keys == old(slots).Keys
      ensures s in slots && slots[s] in created && slots[s].isRef == old(slots[s].isRef)
      ensures slots[s].isRef || slots[s].refcount == 1
    {
      hide Grounded;
      var orig := slots[s];
      if !orig.isRef && orig.refcount > 1 {
        var value := orig.value;
        ghost var m := Store();
        DelRef(s, false);
        Alloc(s, value);
        SharedZvals.SeparationIsHidden(m, s, slots[s]);
      } else {
        SharedZvals.Held(Store(), s);
      }
    }

    /** SEPARATE_ZVAL_TO_MAKE_IS_REF */
    method SeparateToMakeRef(s: Slot)
      requires Valid() && s in slots && s != Uninitialized
      modifies this, created
      ensures Valid() && View() == MakeRef(old(View()), s) && fresh(created - old(created)) && slots.Keys == old(slots).Keys
      ensures s in slots && slots[s] in created && slots[s].isRef
    {
      hide Grounded, SharedZvals.Counted, SharedZvals.View, MakeRef;
      if !slots[s].isRef {
        SeparateIfNotRef(s);
        SetRef(s);
      } else {
        AlreadyRef(s);
      }
    }

    /** Sets is_ref on a value held once. */
    method SetRef(s: Slot)
      requires Valid() && s in slots && s != Uninitialized && slots[s].refcount == 1
      modifies created
      ensures Valid() && View() == MakeRef(old(View()), s) && slots[s].isRef
    {
      SharedZvals.UpdateIsMakeRef(Store(), s);
      StaysGrounded(View(), s, s, Null, false);
      Set(slots[s], slots[s].value, true);
    }

    lemma AlreadyRef(s: Slot)
      requires Valid() && s in slots && slots[s].isRef
      ensures View() == MakeRef(View(), s)
    {
      assert s in SharedZvals.Holders(Store(), slots[s]);
    }

    /** The lookup for writing of a compiled variable that may not exist yet. */
    method FetchForWrite(s: Slot)
      requires Valid() && s != Uninitialized
      modifies this`slots, created
      ensures Valid() && View() == Define(old(View()), s) && slots.Keys == old(slots).Keys + {s}
      ensures s in slots && slots[s].value == ValueOf(old(View()), s) && forall t <- old(slots) :: slots[t] == old(slots[t])
    {
      if s !in slots {
        ShareInto(Uninitialized, s);
      }
    }

    /** A value copied into the new slot t, as ZEND_SEND_VAL does. */
    method SendVal(v: Value, t: Slot)
      requires Valid() && t !in slots
      modifies this
      ensures Valid() && View() == Bind(old(View()), t, v) && fresh(created - old(created))
    {
      ghost var m := Store();
      StaysGrounded(View(), t, t, v, false);
      Alloc(t, v);
      SharedZvals.AllocIsBind(m, t, slots[t], v);
    }

    /** zend_send_by_var_helper, and ZEND_RETURN by value: t gets a value of its own,
        which may share the cell of s only while neither is written. */
    method SendVar(s: Slot, t: Slot)
      requires Valid() && t !in slots && t != Uninitialized
      modifies this, created
      ensures Valid() && View() == Bind(old(View()), t, ValueOf(old(View()), s)) && fresh(created - old(created))
    {
      if s !in slots {
        SendVal(Null, t);
      } else if slots[s].isRef {
        SendVal(slots[s].value, t);
      } else {
        ShareInto(s, t);
      }
    }

    /** ZEND_SEND_REF, and ZEND_RETURN by reference: t becomes a reference to s. */
    method SendRef(s: Slot, t: Slot)
      requires Valid() && t !in slots && s != t && s != Uninitialized && t != Uninitialized
      modifies this, created
      ensures Valid() && View() == Share(MakeRef(Define(old(View()), s), s), s, t) && fresh(created - old(created))
    {
      hide *;
      FetchForWrite(s);
      SeparateToMakeRef(s);
      ShareInto(s, t);
    }

    /** ZEND_SEND_VAR_NO_REF of a variable whose parameter prefers a reference. */
    method SendVarNoRef(s: Slot, t: Slot)
      requires Valid() && t !in slots && s != t && s != Uninitialized && t != Uninitialized
      modifies this, created
      ensures Valid() && fresh(created - old(created))
      ensures View() ==
        if s in old(slots) && (old(slots[s].isRef) || old(slots[s].refcount) == 1)
        then Share(MakeRef(old(View()), s), s, t)
        else Bind(old(View()), t, ValueOf(old(View()), s))
    {
      if s in slots && (slots[s].isRef || slots[s].refcount == 1) {
        SeparateToMakeRef(s);
        ShareInto(s, t);
      } else {
        var value := if s in slots then slots[s].value else Null;
        SendVal(value, t);
      }
    }

    /** ZEND_RECV of the argument in a: the parameter s joins it, or copies it. */
    method Recv(a: Slot, s: Slot)
      requires Valid() && a in slots && a != s && a != Uninitialized && s != Uninitialized
      modifies this, created
      ensures Valid() && fresh(created - old(created))
      ensures View() == Share(Remove(Define(old(View()), s), s, false), a, s)
    {
      hide *;
      FetchForWrite(s);
      Forget(s, false);
      ShareInto(a, s);
    }

    /** ZEND_RECV_INIT without an argument: the parameter s takes its default. */
    method RecvDefault(s: Slot, default: Value)
      requires Valid() && s != Uninitialized
      modifies this, created
      ensures Valid() && fresh(created - old(created))
      ensures View() == Bind(Remove(Define(old(View()), s), s, false), s, default)
    {
      hide *;
      FetchForWrite(s);
      Forget(s, false);
      SendVal(default, s);
    }

    /** Writes f of its value through s, in place. */
    method Overwrite(s: Slot, f: Value -> Value)
      requires Valid() && s in slots && s != Uninitialized
      modifies this, created
      ensures Valid() && fresh(created - old(created))
      ensures View() == Write(old(View()), s, f(old(slots[s].value))) && slots.Keys == old(slots).Keys
    {
      hide Grounded, Write, SharedZvals.Counted, SharedZvals.View;
      SeparateIfNotRef(s);
      var varPtr := slots[s];
      SharedZvals.UpdateIsWrite(Store(), s, f(varPtr.value));
      StaysGrounded(View(), s, s, f(varPtr.value), false);
      Set(varPtr, f(varPtr.value), varPtr.isRef);
    }

    /** That changes the references of s and no other variable. */
    method WriteInPlace(s: Slot, f: Value -> Value)
      requires Valid() && s in slots && s != Uninitialized
      modifies this, created
      ensures Valid() && fresh(created - old(created))
      ensures View() == Write(old(View()), s, f(old(slots[s].value))) && slots.Keys == old(slots).Keys
      ensures View().refs == old(View()).refs && forall t <- slots ::
        slots[t].value == if t == s || t in old(View()).refs[s] then f(old(slots[s].value)) else old(View()).vals[t]
    {
      WriteIs(View(), s, f(slots[s].value));
      hide *;
      Overwrite(s, f);
    }

    /** zend_binary_assign_op_helper and ZEND_PRE_INC on compiled variables, and
        REPLACE_ZVAL_VALUE: s becomes f of itself. A result that is used takes it. */
    method Modify(s: Slot, f: Value -> Value, result: Option<Slot>)
      requires Valid() && s != Uninitialized
      requires result.Some? ==> result.value !in slots && result.value != s && result.value != Uninitialized
      modifies this, created
      ensures Valid() && fresh(created - old(created))
      ensures View() == Modified(old(View()), s, f(ValueOf(old(View()), s)), result)
    {
      hide *;
      ModifiedIs(View(), s, f(ValueOf(View(), s)), result);
      FetchForWrite(s);
      WriteInPlace(s, f);
      if result.Some? {
        ShareInto(s, result.value);
      }
    }

    /** ZEND_ASSIGN_ADD and the like: s op= y. The operand is read first. */
    method AssignOp(s: Slot, y: Slot, op: (Value, Value) -> Value, result: Option<Slot>)
      requires Valid() && s != Uninitialized
      requires result.Some? ==> result.value !in slots && result.value != s && result.value != Uninitialized
      modifies this, created
      ensures Valid() && fresh(created - old(created))
      ensures View() == Modified(old(View()), s, op(ValueOf(old(View()), s), ValueOf(old(View()), y)), result)
    {
      var value := if y in slots then slots[y].value else Null;
      Modify(s, v => op(v, value), result);
    }

    /** ZEND_POST_INC and ZEND_POST_DEC: the result is the value before the change. */
    method PostIncDec(s: Slot, f: Value -> Value) returns (before: Value)
      requires Valid() && s != Uninitialized
      modifies this, created
      ensures Valid() && fresh(created - old(created))
      ensures before == ValueOf(old(View()), s) && View() == Modified(old(View()), s, f(before), None)
    {
      before := if s in slots then slots[s].value else Null;
      Modify(s, f, None);
    }
  }
}
