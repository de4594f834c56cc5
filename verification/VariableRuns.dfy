/** Whole runs of the variable handlers. */
module VariableRuns {
  import opened Wrappers
  import opened Environment
  import SharedZvals
  import opened Zvals

  datatype Step =
    | Unset(s: Slot)
    | SendVal(v: Value, t: Slot)
    | SendVar(s: Slot, t: Slot)
    | SendRef(s: Slot, t: Slot)
    | Recv(a: Slot, s: Slot)
    | RecvDefault(s: Slot, default: Value)
    | AssignOp(s: Slot, y: Slot, op: (Value, Value) -> Value, result: Option<Slot>)
    | IncDec(s: Slot, f: Value -> Value, result: Option<Slot>)
    | PostIncDec(s: Slot, f: Value -> Value, t: Slot)
    | SendVarNoRef(s: Slot, t: Slot)

  predicate New(e: Env, t: Slot) {
    t !in e.vals && t != Uninitialized
  }

  predicate NewResult(e: Env, s: Slot, result: Option<Slot>) {
    result.Some? ==> New(e, result.value) && result.value != s
  }

  /** What compiled code guarantees: sends and results go to free places, and what is
      received or destroyed exists. What SEND_VAR_NO_REF does depends on what programs cannot
      tell, so it only happens as one of the other sends. */
  predicate Enabled(e: Env, step: Step) {
    match step
    case Unset(s) => s in e.vals && s != Uninitialized
    case SendVal(v, t) => New(e, t)
    case SendVar(s, t) => New(e, t)
    case SendRef(s, t) => New(e, t) && s != t && s != Uninitialized
    case Recv(a, s) => a in e.vals && a != s && a != Uninitialized && s != Uninitialized
    case RecvDefault(s, default) => s != Uninitialized
    case AssignOp(s, y, op, result) => s != Uninitialized && NewResult(e, s, result)
    case IncDec(s, f, result) => s != Uninitialized && NewResult(e, s, result)
    case PostIncDec(s, f, t) => s != Uninitialized && New(e, t) && t != s
    case SendVarNoRef(s, t) => false
  }

  function After(e: Env, step: Step, clears: bool): Env
    requires e.vals.Keys == e.refs.Keys && Enabled(e, step)
  {
    match step
    case Unset(s) => Remove(e, s, clears)
    case SendVal(v, t) => Bind(e, t, v)
    case SendVar(s, t) => Bind(e, t, ValueOf(e, s))
    case SendRef(s, t) => Share(MakeRef(Define(e, s), s), s, t)
    case Recv(a, s) => Share(Remove(Define(e, s), s, false), a, s)
    case RecvDefault(s, default) => Bind(Remove(Define(e, s), s, false), s, default)
    case AssignOp(s, y, op, result) => Modified(e, s, op(ValueOf(e, s), ValueOf(e, y)), result)
    case IncDec(s, f, result) => Modified(e, s, f(ValueOf(e, s)), result)
    case PostIncDec(s, f, t) => Bind(Modified(e, s, f(ValueOf(e, s)), None), t, ValueOf(e, s))
  }

  /** What a step happens as, with byRef what the count of holders decides: by reference only
      if the variable exists, and always if it is a reference. */
  function Way(e: Env, step: Step, byRef: bool): Step {
    match step
    case SendVarNoRef(s, t) =>
      if s in e.vals && s in e.refs && (byRef || e.refs[s] != {}) then SendRef(s, t) else SendVar(s, t)
    case _ => step
  }

  /** The step may happen as way. */
  ghost predicate IsWay(e: Env, step: Step, way: Step)
    ensures IsWay(e, step, way) ==> Enabled(e, way)
  {
    Enabled(e, way) && (way == Way(e, step, true) || way == Way(e, step, false))
  }

  ghost predicate EitherEnabled(e: Env, step: Step) {
    && Enabled(e, Way(e, step, true)) && Enabled(e, Way(e, step, false))
    && (step.SendVarNoRef? ==> step.s != step.t && step.s != Uninitialized)
  }

  /** The steps are enabled whichever ways they happen. */
  ghost predicate EveryWayEnabled(e: Env, steps: seq<Step>, clears: bool)
    requires Coherent(e)
    decreases |steps|
  {
    if steps == [] then true
    else
      EitherEnabled(e, steps[0]) &&
      (AfterCoherent(e, Way(e, steps[0], true), clears);
       AfterCoherent(e, Way(e, steps[0], false), clears);
       && EveryWayEnabled(After(e, Way(e, steps[0], true), clears), steps[1..], clears)
       && EveryWayEnabled(After(e, Way(e, steps[0], false), clears), steps[1..], clears))
  }

  /** ways is how the steps from e on may happen. */
  ghost predicate AreWays(e: Env, steps: seq<Step>, ways: seq<Step>, clears: bool)
    requires Coherent(e)
    decreases |steps|
  {
    if steps == [] then ways == []
    else
      && ways != [] && IsWay(e, steps[0], ways[0])
      && (AfterCoherent(e, ways[0], clears);
          AreWays(After(e, ways[0], clears), steps[1..], ways[1..], clears))
  }

  lemma {:induction false} WaysEnabled(e: Env, steps: seq<Step>, ways: seq<Step>, clears: bool)
    requires Coherent(e) && AreWays(e, steps, ways, clears)
    ensures AllEnabled(e, ways, clears)
    decreases |steps|
  {
    if steps != [] {
      AfterCoherent(e, ways[0], clears);
      WaysEnabled(After(e, ways[0], clears), steps[1..], ways[1..], clears);
    }
  }

  ghost predicate AllEnabled(e: Env, steps: seq<Step>, clears: bool)
    requires Coherent(e)
    decreases |steps|
  {
    if steps == [] then true
    else
      Enabled(e, steps[0]) &&
      (AfterCoherent(e, steps[0], clears);
       AllEnabled(After(e, steps[0], clears), steps[1..], clears))
  }

  ghost function AfterAll(e: Env, steps: seq<Step>, clears: bool): (r: Env)
    requires Coherent(e) && AllEnabled(e, steps, clears)
    ensures Coherent(r)
    decreases |steps|
  {
    if steps == [] then e
    else
      AfterCoherent(e, steps[0], clears);
      AfterAll(After(e, steps[0], clears), steps[1..], clears)
  }

  lemma AfterCoherent(e: Env, step: Step, clears: bool)
    requires Coherent(e) && Enabled(e, step)
    ensures Coherent(After(e, step, clears))
  {
    match step
    case Unset(s) => CoherentRemove(e, s, clears);
    case SendVal(v, t) => CoherentBind(e, t, v);
    case SendVar(s, t) => CoherentBind(e, t, ValueOf(e, s));
    case SendRef(s, t) =>
      DefineCoherent(e, s);
      CoherentMakeRef(Define(e, s), s);
      CoherentShare(MakeRef(Define(e, s), s), s, t);
    case Recv(a, s) =>
      DefineCoherent(e, s);
      CoherentRemove(Define(e, s), s, false);
      CoherentShare(Remove(Define(e, s), s, false), a, s);
    case RecvDefault(s, default) =>
      DefineCoherent(e, s);
      CoherentRemove(Define(e, s), s, false);
      CoherentBind(Remove(Define(e, s), s, false), s, default);
    case AssignOp(s, y, op, result) => ModifiedCoherent(e, s, op(ValueOf(e, s), ValueOf(e, y)), result);
    case IncDec(s, f, result) => ModifiedCoherent(e, s, f(ValueOf(e, s)), result);
    case PostIncDec(s, f, t) =>
      ModifiedCoherent(e, s, f(ValueOf(e, s)), None);
      CoherentBind(Modified(e, s, f(ValueOf(e, s)), None), t, ValueOf(e, s));
  }

  lemma DefineCoherent(e: Env, s: Slot)
    requires Coherent(e)
    ensures Coherent(Define(e, s))
  {
    if s !in e.vals {
      CoherentBind(e, s, Null);
    }
  }

  lemma ModifiedCoherent(e: Env, s: Slot, v: Value, result: Option<Slot>)
    requires Coherent(e) && NewResult(e, s, result)
    ensures Coherent(Modified(e, s, v, result))
  {
    DefineCoherent(e, s);
    CoherentWrite(Define(e, s), s, v);
    if result.Some? {
      CoherentShare(Write(Define(e, s), s, v), s, result.value);
    }
  }

  /** All counts are right, and e is what the program can tell. */
  ghost predicate Shows(m: Variables, e: Env)
    reads m, m.created
    ensures Shows(m, e) ==> e.vals.Keys == e.refs.Keys
  {
    m.Valid() && m.View() == e
  }

  /** One step from e, and how it happened. */
  method Execute(m: Variables, step: Step, ghost e: Env) returns (ghost way: Step)
    requires Shows(m, e) && EitherEnabled(e, step)
    modifies m, m.created
    ensures fresh(m.created - old(m.created))
    ensures IsWay(e, step, way) && Shows(m, After(e, way, m.clears))
  {
    hide Bind, Remove, Share, MakeRef, Define, Modified, Write, ValueOf, Grounded, SharedZvals.Counted, SharedZvals.View;
    way := step;
    match step
    case Unset(s) => m.Release(s);
    case SendVal(v, t) => m.SendVal(v, t);
    case SendVar(s, t) => m.SendVar(s, t);
    case SendRef(s, t) => m.SendRef(s, t);
    case Recv(a, s) => m.Recv(a, s);
    case RecvDefault(s, default) => m.RecvDefault(s, default);
    case AssignOp(s, y, op, result) => m.AssignOp(s, y, op, result);
    case IncDec(s, f, result) => m.Modify(s, f, result);
    case PostIncDec(s, f, t) => ExecutePost(m, s, f, t, e);
    case SendVarNoRef(s, t) => way := ExecuteNoRef(m, s, t, e);
  }

  method ExecutePost(m: Variables, s: Slot, f: Value -> Value, t: Slot, ghost e: Env)
    requires Shows(m, e) && Enabled(e, PostIncDec(s, f, t))
    modifies m, m.created
    ensures fresh(m.created - old(m.created))
    ensures Shows(m, After(e, PostIncDec(s, f, t), m.clears))
  {
    PostIs(e, s, f, t, m.clears);
    hide *;
    var before := Change(m, s, f, e);
    Store(m, before, t, Modified(e, s, f(ValueOf(e, s)), None));
  }

  method Change(m: Variables, s: Slot, f: Value -> Value, ghost e: Env) returns (before: Value)
    requires Shows(m, e) && s != Uninitialized
    modifies m, m.created
    ensures fresh(m.created - old(m.created))
    ensures before == ValueOf(e, s) && Shows(m, Modified(e, s, f(before), None))
  {
    hide ValueOf, Modified, SharedZvals.Counted, SharedZvals.View, Grounded;
    before := m.PostIncDec(s, f);
  }

  method Store(m: Variables, v: Value, t: Slot, ghost e: Env)
    requires Shows(m, e) && t !in e.vals
    modifies m, m.created
    ensures fresh(m.created - old(m.created))
    ensures Shows(m, Bind(e, t, v))
  {
    hide Bind, SharedZvals.Counted, SharedZvals.View, Grounded;
    m.SendVal(v, t);
  }

  lemma PostIs(e: Env, s: Slot, f: Value -> Value, t: Slot, clears: bool)
    requires e.vals.Keys == e.refs.Keys && Enabled(e, PostIncDec(s, f, t))
    ensures s != Uninitialized && t !in Modified(e, s, f(ValueOf(e, s)), None).vals
    ensures After(e, PostIncDec(s, f, t), clears) == Bind(Modified(e, s, f(ValueOf(e, s)), None), t, ValueOf(e, s))
  {
    ModifiedKeys(e, s, f(ValueOf(e, s)));
  }

  lemma ModifiedKeys(e: Env, s: Slot, v: Value)
    requires e.vals.Keys == e.refs.Keys
    ensures Modified(e, s, v, None).vals.Keys == e.vals.Keys + {s}
  {
  }

  method ExecuteNoRef(m: Variables, s: Slot, t: Slot, ghost e: Env) returns (ghost way: Step)
    requires Shows(m, e) && EitherEnabled(e, SendVarNoRef(s, t))
    modifies m, m.created
    ensures fresh(m.created - old(m.created))
    ensures IsWay(e, SendVarNoRef(s, t), way) && Shows(m, After(e, way, m.clears))
  {
    ghost var byRef := s in m.slots && (m.slots[s].isRef || m.slots[s].refcount == 1);
    if s in m.slots {
      RefIsRef(m, s);
    }
    way := Way(e, SendVarNoRef(s, t), byRef);
    hide Bind, Share, MakeRef, ValueOf, Grounded, SharedZvals.Counted, SharedZvals.View;
    m.SendVarNoRef(s, t);
  }

  /** A variable is a reference just if its value says so. */
  lemma RefIsRef(m: Variables, s: Slot)
    requires m.Valid() && s in m.slots
    ensures m.View().refs[s] != {} <==> m.slots[s].isRef
  {
    assert s in SharedZvals.Holders(m.Store(), m.slots[s]);
  }

  /** The steps from e happened as ways, and led to last. */
  ghost predicate Led(e: Env, steps: seq<Step>, ways: seq<Step>, last: Env, clears: bool) {
    Coherent(e) && AreWays(e, steps, ways, clears) && AllEnabled(e, ways, clears) && AfterAll(e, ways, clears) == last
  }

  /** Over a whole run, counting references and copying on write is not visible, but for the
      ways that SEND_VAR_NO_REF happened. */
  method Run(m: Variables, steps: seq<Step>, ghost e: Env) returns (ghost ways: seq<Step>, ghost last: Env)
    requires Shows(m, e) && Coherent(e) && EveryWayEnabled(e, steps, m.clears)
    modifies m, m.created
    ensures fresh(m.created - old(m.created))
    ensures Led(e, steps, ways, last, m.clears) && Shows(m, last)
    decreases |steps|
  {
    hide *;
    ways, last := [], e;
    if steps == [] {
      NoSteps(e, steps, m.clears);
    } else {
      FirstEnabled(e, steps, m.clears);
      ghost var way := Execute(m, steps[0], e);
      ways, last := Run(m, steps[1..], After(e, way, m.clears));
      FirstWay(e, steps, way, ways, last, m.clears);
      ways := [way] + ways;
    }
  }

  lemma NoSteps(e: Env, steps: seq<Step>, clears: bool)
    requires Coherent(e) && steps == []
    ensures Led(e, steps, [], e, clears)
  {
  }

  lemma FirstEnabled(e: Env, steps: seq<Step>, clears: bool)
    requires Coherent(e) && steps != [] && EveryWayEnabled(e, steps, clears)
    ensures EitherEnabled(e, steps[0])
    ensures forall way :: IsWay(e, steps[0], way) ==>
      Coherent(After(e, way, clears)) && EveryWayEnabled(After(e, way, clears), steps[1..], clears)
  {
    AfterCoherent(e, Way(e, steps[0], true), clears);
    AfterCoherent(e, Way(e, steps[0], false), clears);
    hide Coherent, Enabled, After, Way;
  }

  lemma FirstWay(e: Env, steps: seq<Step>, way: Step, more: seq<Step>, last: Env, clears: bool)
    requires Coherent(e) && steps != [] && IsWay(e, steps[0], way)
    requires Led(After(e, way, clears), steps[1..], more, last, clears)
    ensures Led(e, steps, [way] + more, last, clears)
  {
    hide Enabled, After, Way;
    assert ([way] + more)[1..] == more;
    WaysEnabled(After(e, way, clears), steps[1..], more, clears);
  }

  /** The slots a step writes, moves or destroys by name. */
  function Named(step: Step): set<Slot> {
    match step
    case Unset(s) => {s}
    case SendVal(v, t) => {t}
    case SendVar(s, t) => {t}
    case SendRef(s, t) => {s, t}
    case Recv(a, s) => {a, s}
    case RecvDefault(s, default) => {s}
    case AssignOp(s, y, op, result) => {s} + (if result.Some? then {result.value} else {})
    case IncDec(s, f, result) => {s} + (if result.Some? then {result.value} else {})
    case PostIncDec(s, f, t) => {s, t}
    case SendVarNoRef(s, t) => {s, t}
  }

  ghost predicate Alone(e: Env, t: Slot) {
    t in e.vals && t in e.refs && e.refs[t] == {} && forall s <- e.refs :: t !in e.refs[s]
  }

  lemma OpsKeepAlone(e: Env, x: Slot, y: Slot, v: Value, clears: bool, t: Slot)
    requires e.vals.Keys == e.refs.Keys && Alone(e, t) && x != t && y != t
    ensures Alone(Remove(e, x, clears), t) && Remove(e, x, clears).vals[t] == e.vals[t]
    ensures Alone(Bind(e, x, v), t) && Alone(Define(e, x), t)
    ensures x in e.refs ==> Alone(MakeRef(e, x), t) && Alone(Write(e, x, v), t) && Write(e, x, v).vals[t] == e.vals[t]
    ensures x in e.refs ==> Alone(Share(e, x, y), t) && Share(e, x, y).vals[t] == e.vals[t]
  {
    if x in e.refs {
      ShareKeepsAlone(e, x, y, t);
    }
    hide Share;
  }

  lemma ShareKeepsAlone(e: Env, x: Slot, y: Slot, t: Slot)
    requires e.vals.Keys == e.refs.Keys && Alone(e, t) && x != t && y != t && x in e.refs
    ensures Alone(Share(e, x, y), t) && Share(e, x, y).vals[t] == e.vals[t]
  {
  }

  lemma StaysAlone(e: Env, step: Step, t: Slot, clears: bool)
    requires Coherent(e) && Enabled(e, step) && Alone(e, t) && t !in Named(step)
    ensures Alone(After(e, step, clears), t) && After(e, step, clears).vals[t] == e.vals[t]
  {
    hide Alone, Share, Write, Remove;
    match step
    case Unset(x) => OpsKeepAlone(e, x, x, Null, clears, t);
    case SendVal(v, x) => OpsKeepAlone(e, x, x, v, clears, t);
    case SendVar(x, y) => OpsKeepAlone(e, y, y, ValueOf(e, x), clears, t);
    case SendRef(x, y) =>
      OpsKeepAlone(e, x, y, Null, clears, t);
      OpsKeepAlone(Define(e, x), x, y, Null, clears, t);
      OpsKeepAlone(MakeRef(Define(e, x), x), x, y, Null, clears, t);
    case Recv(a, x) =>
      ReplaceKeepsAlone(e, x, t);
      OpsKeepAlone(Remove(Define(e, x), x, false), a, x, Null, clears, t);
    case RecvDefault(x, default) =>
      ReplaceKeepsAlone(e, x, t);
      OpsKeepAlone(Remove(Define(e, x), x, false), x, x, default, clears, t);
    case AssignOp(x, y, op, result) => ModifiedKeepsAlone(e, x, op(ValueOf(e, x), ValueOf(e, y)), result, t);
    case IncDec(x, f, result) => ModifiedKeepsAlone(e, x, f(ValueOf(e, x)), result, t);
    case PostIncDec(x, f, y) =>
      ModifiedKeepsAlone(e, x, f(ValueOf(e, x)), None, t);
      ModifiedCoherent(e, x, f(ValueOf(e, x)), None);
      OpsKeepAlone(Modified(e, x, f(ValueOf(e, x)), None), y, y, ValueOf(e, x), clears, t);
  }

  lemma ReplaceKeepsAlone(e: Env, x: Slot, t: Slot)
    requires Coherent(e) && Alone(e, t) && x != t
    ensures var n := Remove(Define(e, x), x, false);
      Coherent(n) && n.vals.Keys == e.vals.Keys - {x} && Alone(n, t) && n.vals[t] == e.vals[t]
  {
    DefineCoherent(e, x);
    CoherentRemove(Define(e, x), x, false);
    OpsKeepAlone(e, x, x, Null, false, t);
    OpsKeepAlone(Define(e, x), x, x, Null, false, t);
  }

  lemma ModifiedKeepsAlone(e: Env, x: Slot, v: Value, result: Option<Slot>, t: Slot)
    requires Coherent(e) && NewResult(e, x, result) && Alone(e, t) && x != t && result != Some(t)
    ensures Alone(Modified(e, x, v, result), t) && Modified(e, x, v, result).vals[t] == e.vals[t]
  {
    DefineCoherent(e, x);
    OpsKeepAlone(e, x, x, v, false, t);
    OpsKeepAlone(Define(e, x), x, x, v, false, t);
    if result.Some? {
      CoherentWrite(Define(e, x), x, v);
      OpsKeepAlone(Write(Define(e, x), x, v), x, result.value, v, false, t);
    }
  }

  /** A value passed by value keeps it whatever other variables go through, the
      variable it came from included. */
  lemma {:induction false} ValueIsIsolated(e: Env, s: Slot, t: Slot, steps: seq<Step>, clears: bool)
    requires Coherent(e) && New(e, t)
    ensures Coherent(After(e, SendVar(s, t), clears))
    ensures AllEnabled(After(e, SendVar(s, t), clears), steps, clears) && (forall step <- steps :: t !in Named(step)) ==>
      var last := AfterAll(After(e, SendVar(s, t), clears), steps, clears);
      t in last.vals && last.vals[t] == ValueOf(e, s)
  {
    AfterCoherent(e, SendVar(s, t), clears);
    var n := After(e, SendVar(s, t), clears);
    assert Alone(n, t) by {
      forall x <- e.refs ensures t !in e.refs[x] {
        assert Tied(e, x, t);
      }
    }
    if AllEnabled(n, steps, clears) && forall step <- steps :: t !in Named(step) {
      AloneThroughout(n, steps, t, clears);
    }
  }

  lemma {:induction false} AloneThroughout(e: Env, steps: seq<Step>, t: Slot, clears: bool)
    requires Coherent(e) && AllEnabled(e, steps, clears) && Alone(e, t)
    requires forall step <- steps :: t !in Named(step)
    ensures t in AfterAll(e, steps, clears).vals && AfterAll(e, steps, clears).vals[t] == e.vals[t]
    decreases |steps|
  {
    if steps != [] {
      StaysAlone(e, steps[0], t, clears);
      AfterCoherent(e, steps[0], clears);
      AloneThroughout(After(e, steps[0], clears), steps[1..], t, clears);
    }
  }

  /** The slot a step gives up or binds anew. */
  function Rebound(step: Step): set<Slot> {
    match step
    case Unset(s) => {s}
    case Recv(a, s) => {s}
    case RecvDefault(s, default) => {s}
    case _ => {}
  }

  ghost predicate Together(e: Env, s: Slot, t: Slot) {
    s in e.refs && t in e.refs[s] && s != t
  }

  lemma OpsKeepTogether(e: Env, x: Slot, y: Slot, v: Value, clears: bool, s: Slot, t: Slot)
    requires Coherent(e) && Together(e, s, t)
    ensures x != s && x != t ==> Together(Remove(e, x, clears), s, t)
    ensures x !in e.vals ==> Together(Bind(e, x, v), s, t)
    ensures Together(Define(e, x), s, t)
    ensures x in e.refs ==> Together(MakeRef(e, x), s, t) && Together(Write(e, x, v), s, t)
    ensures x in e.refs && y !in e.vals ==> Together(Share(e, x, y), s, t)
  {
    if x in e.refs && y !in e.vals {
      ShareKeepsTogether(e, x, y, s, t);
    }
    hide Share;
    assert Tied(e, s, t);
    assert x in e.refs ==> Tied(e, x, s);
    assert x != t ==> t in e.refs[s] - {x};
  }

  lemma ShareKeepsTogether(e: Env, x: Slot, y: Slot, s: Slot, t: Slot)
    requires Coherent(e) && Together(e, s, t) && x in e.refs && y !in e.vals
    ensures Together(Share(e, x, y), s, t)
  {
    assert Tied(e, s, t) && Tied(e, x, s);
  }

  lemma StaysTogether(e: Env, step: Step, s: Slot, t: Slot, clears: bool)
    requires Coherent(e) && Enabled(e, step) && Together(e, s, t)
    requires s !in Rebound(step) && t !in Rebound(step)
    ensures Together(After(e, step, clears), s, t)
  {
    hide Together, Share, Write;
    match step
    case Unset(x) => OpsKeepTogether(e, x, x, Null, clears, s, t);
    case SendVal(v, x) => OpsKeepTogether(e, x, x, v, clears, s, t);
    case SendVar(x, y) => OpsKeepTogether(e, y, y, ValueOf(e, x), clears, s, t);
    case SendRef(x, y) =>
      OpsKeepTogether(e, x, y, Null, clears, s, t);
      DefineCoherent(e, x);
      OpsKeepTogether(Define(e, x), x, y, Null, clears, s, t);
      CoherentMakeRef(Define(e, x), x);
      OpsKeepTogether(MakeRef(Define(e, x), x), x, y, Null, clears, s, t);
    case Recv(a, x) =>
      ReplaceKeepsTogether(e, x, s, t);
      OpsKeepTogether(Remove(Define(e, x), x, false), a, x, Null, clears, s, t);
    case RecvDefault(x, default) =>
      ReplaceKeepsTogether(e, x, s, t);
      OpsKeepTogether(Remove(Define(e, x), x, false), x, x, default, clears, s, t);
    case AssignOp(x, y, op, result) => ModifiedKeepsTogether(e, x, op(ValueOf(e, x), ValueOf(e, y)), result, s, t);
    case IncDec(x, f, result) => ModifiedKeepsTogether(e, x, f(ValueOf(e, x)), result, s, t);
    case PostIncDec(x, f, y) =>
      ModifiedKeepsTogether(e, x, f(ValueOf(e, x)), None, s, t);
      ModifiedCoherent(e, x, f(ValueOf(e, x)), None);
      ModifiedKeys(e, x, f(ValueOf(e, x)));
      OpsKeepTogether(Modified(e, x, f(ValueOf(e, x)), None), y, y, ValueOf(e, x), clears, s, t);
  }

  lemma ReplaceKeepsTogether(e: Env, x: Slot, s: Slot, t: Slot)
    requires Coherent(e) && Together(e, s, t) && x != s && x != t
    ensures Coherent(Remove(Define(e, x), x, false)) && Together(Remove(Define(e, x), x, false), s, t)
  {
    DefineCoherent(e, x);
    CoherentRemove(Define(e, x), x, false);
    OpsKeepTogether(e, x, x, Null, false, s, t);
    OpsKeepTogether(Define(e, x), x, x, Null, false, s, t);
  }

  lemma ModifiedKeepsTogether(e: Env, x: Slot, v: Value, result: Option<Slot>, s: Slot, t: Slot)
    requires Coherent(e) && NewResult(e, x, result) && Together(e, s, t)
    ensures Together(Modified(e, x, v, result), s, t)
  {
    DefineCoherent(e, x);
    CoherentWrite(Define(e, x), x, v);
    OpsKeepTogether(e, x, x, v, false, s, t);
    OpsKeepTogether(Define(e, x), x, x, v, false, s, t);
    if result.Some? {
      OpsKeepTogether(Write(Define(e, x), x, v), x, result.value, v, false, s, t);
    }
  }

  /** A reference passed is the variable: the two agree after any writes through either
      or anything else, until one of them is unset or received into. */
  lemma {:induction false} ReferencesAgree(e: Env, s: Slot, t: Slot, steps: seq<Step>, clears: bool)
    requires Coherent(e) && Together(e, s, t) && AllEnabled(e, steps, clears)
    requires forall step <- steps :: s !in Rebound(step) && t !in Rebound(step)
    ensures var last := AfterAll(e, steps, clears);
      s in last.vals && t in last.vals && last.vals[s] == last.vals[t]
    decreases |steps|
  {
    assert Tied(e, s, t);
    if steps != [] {
      StaysTogether(e, steps[0], s, t, clears);
      AfterCoherent(e, steps[0], clears);
      ReferencesAgree(After(e, steps[0], clears), s, t, steps[1..], clears);
    }
  }

  lemma SentRefIsReference(e: Env, s: Slot, t: Slot, clears: bool)
    requires Coherent(e) && Enabled(e, SendRef(s, t))
    ensures var n := After(e, SendRef(s, t), clears);
      Coherent(n) && Together(n, s, t) && n.vals[t] == ValueOf(e, s)
  {
    AfterCoherent(e, SendRef(s, t), clears);
    DefineCoherent(e, s);
    assert forall x :: x in Define(e, s).refs[s] ==> Tied(Define(e, s), s, x);
  }
}
