/** What each variable handler does to values and references, slot by slot. */
module VariableLaws {
  import opened Wrappers
  import opened Environment
  import opened VariableRuns

  /** The variable goes. Its references stay references of each other, but with clears set one
      that is left alone is a reference no more. */
  lemma Unsets(e: Env, s: Slot, clears: bool)
    requires Coherent(e) && Enabled(e, Unset(s))
    ensures var n := After(e, Unset(s), clears);
      && n.vals == e.vals - {s} && n.refs.Keys == e.refs.Keys - {s}
      && forall t <- n.refs :: n.refs[t] == if clears && e.refs[t] == {s, t} then {} else e.refs[t] - {s}
  {
    forall t | t in e.refs && t != s && s in e.refs[t] ensures t in e.refs[t] {
      assert Tied(e, t, s);
    }
    forall t | t in e.refs && t != s && s in e.refs[t]
      ensures e.refs[t] - {s} == {t} <==> e.refs[t] == {s, t}
    {
      assert e.refs[t] == (e.refs[t] - {s}) + {s};
    }
  }

  /** The argument is a plain variable of the value. */
  lemma SendsVal(e: Env, v: Value, t: Slot, clears: bool)
    requires Coherent(e) && Enabled(e, SendVal(v, t))
    ensures After(e, SendVal(v, t), clears) == Env(e.vals[t := v], e.refs[t := {}])
  {
  }

  /** The argument is a plain variable of what the variable holds, which is null if there is
      none. */
  lemma SendsVar(e: Env, s: Slot, t: Slot, clears: bool)
    requires Coherent(e) && Enabled(e, SendVar(s, t))
    ensures After(e, SendVar(s, t), clears) == Env(e.vals[t := if s in e.vals then e.vals[s] else Null], e.refs[t := {}])
  {
  }

  /** The argument joins the references of the variable, and the variable is one. */
  lemma SendsRef(e: Env, s: Slot, t: Slot, clears: bool)
    requires Coherent(e) && Enabled(e, SendRef(s, t))
    ensures var n := After(e, SendRef(s, t), clears);
      var v := if s in e.vals then e.vals[s] else Null;
      var all := (if s in e.refs then e.refs[s] else {}) + {s, t};
      && n.vals == e.vals[s := v][t := v] && n.refs.Keys == e.refs.Keys + {s, t}
      && forall x <- n.refs :: n.refs[x] == if x in all then all else e.refs[x]
  {
    if s in e.refs {
      assert e.refs[s] != {} ==> s in e.refs[s] by {
        if x :| x in e.refs[s] {
          assert Tied(e, s, x);
        }
      }
    }
  }

  /** The parameter leaves its references. It takes the value of the argument, and joins its
      references if it is one. */
  lemma Receives(e: Env, a: Slot, s: Slot, clears: bool)
    requires Coherent(e) && Enabled(e, Recv(a, s))
    ensures var n := After(e, Recv(a, s), clears);
      && n.vals == e.vals[s := e.vals[a]] && n.refs.Keys == e.refs.Keys + {s}
      && n.refs[s] == (if e.refs[a] == {} then {} else e.refs[a] + {s})
      && forall x <- e.refs :: x != s ==> n.refs[x] == if x in e.refs[a] then e.refs[a] + {s} else e.refs[x] - {s}
  {
    forall x ensures x in e.refs[a] ==> a in e.refs[a] && x in e.refs && e.refs[x] == e.refs[a] {
      assert Tied(e, a, x);
    }
    assert e.refs[a] == {} || a in e.refs[a] by {
      if x :| x in e.refs[a] {
      }
    }
    assert (e.refs[a] - {s}) + {s} == e.refs[a] + {s};
  }

  /** The parameter leaves its references, and is a plain variable of the default. */
  lemma ReceivesDefault(e: Env, s: Slot, default: Value, clears: bool)
    requires Coherent(e) && Enabled(e, RecvDefault(s, default))
    ensures var n := After(e, RecvDefault(s, default), clears);
      && n.vals == e.vals[s := default] && n.refs.Keys == e.refs.Keys + {s} && n.refs[s] == {}
      && forall x <- e.refs :: x != s ==> n.refs[x] == e.refs[x] - {s}
  {
  }

  /** n is e after v was written to s: the references of s hold it, and no other slot changes. */
  ghost predicate Written(e: Env, s: Slot, v: Value, n: Env) {
    && n.vals.Keys == e.vals.Keys + {s} && n.vals[s] == v
    && (forall t <- e.vals :: n.vals[t] == if t == s || (s in e.refs && t in e.refs[s]) then v else e.vals[t])
    && n.refs == if s in e.refs then e.refs else e.refs[s := {}]
  }

  /** n is m where result holds what s does, and is a reference of it if s is a reference. */
  ghost predicate Taken(m: Env, s: Slot, result: Slot, n: Env)
    requires s in m.vals && s in m.refs
  {
    && n.vals == m.vals[result := m.vals[s]] && n.refs.Keys == m.refs.Keys + {result}
    && n.refs[result] == (if m.refs[s] == {} then {} else m.refs[s] + {result})
    && forall x <- m.refs :: n.refs[x] == if x in m.refs[s] then m.refs[s] + {result} else m.refs[x]
  }

  lemma Writes(e: Env, s: Slot, v: Value)
    requires Coherent(e)
    ensures Written(e, s, v, Modified(e, s, v, None))
  {
  }

  lemma Takes(e: Env, s: Slot, v: Value, result: Slot)
    requires Coherent(e) && NewResult(e, s, Some(result))
    ensures Written(e, s, v, Modified(e, s, v, None))
    ensures Taken(Modified(e, s, v, None), s, result, Modified(e, s, v, Some(result)))
  {
    Writes(e, s, v);
    ModifiedCoherent(e, s, v, None);
    var m := Modified(e, s, v, None);
    forall x | x in m.refs[s] ensures x in m.refs && m.refs[x] == m.refs[s] {
      assert Tied(m, s, x);
    }
  }

  /** The variable takes op of its value and that of the operand, both as they were, and so do
      its references. A result that is used takes what the variable then holds. */
  lemma AssignsOp(e: Env, s: Slot, y: Slot, op: (Value, Value) -> Value, result: Option<Slot>, clears: bool) returns (m: Env)
    requires Coherent(e) && Enabled(e, AssignOp(s, y, op, result))
    ensures Written(e, s, op(if s in e.vals then e.vals[s] else Null, if y in e.vals then e.vals[y] else Null), m)
    ensures var n := After(e, AssignOp(s, y, op, result), clears);
      if result.Some? then Taken(m, s, result.value, n) else n == m
  {
    var v := op(ValueOf(e, s), ValueOf(e, y));
    m := Modified(e, s, v, None);
    Writes(e, s, v);
    if result.Some? {
      Takes(e, s, v, result.value);
    }
  }

  /** So it does with a function of its value. */
  lemma IncDecs(e: Env, s: Slot, f: Value -> Value, result: Option<Slot>, clears: bool) returns (m: Env)
    requires Coherent(e) && Enabled(e, IncDec(s, f, result))
    ensures Written(e, s, f(if s in e.vals then e.vals[s] else Null), m)
    ensures var n := After(e, IncDec(s, f, result), clears);
      if result.Some? then Taken(m, s, result.value, n) else n == m
  {
    var v := f(ValueOf(e, s));
    m := Modified(e, s, v, None);
    Writes(e, s, v);
    if result.Some? {
      Takes(e, s, v, result.value);
    }
  }

  /** And the postfix operators, whose result is a plain variable of the value before. */
  lemma PostIncDecs(e: Env, s: Slot, f: Value -> Value, t: Slot, clears: bool) returns (m: Env)
    requires Coherent(e) && Enabled(e, PostIncDec(s, f, t))
    ensures Written(e, s, f(if s in e.vals then e.vals[s] else Null), m)
    ensures After(e, PostIncDec(s, f, t), clears)
      == Env(m.vals[t := if s in e.vals then e.vals[s] else Null], m.refs[t := {}])
  {
    var v := f(ValueOf(e, s));
    m := Modified(e, s, v, None);
    Writes(e, s, v);
  }
}
