/** Whole runs of nested calls that may throw anywhere. */
module CallRuns {
  import opened Wrappers
  import opened PendingCalls

  /** An object that code can name: $this, or one that is kept. */
  datatype Receiver = This | Kept(i: nat)

  /** How a call begins. */
  datatype Spec =
    | ByName(fn: nat)
    | Closure(bound: Option<Receiver>, ce: nat, fn: nat)
    | Method(receiver: Receiver, fn: nat, ce: nat, isStatic: bool)
    | Static(ce: nat, thisCe: nat, fn: nat, isStatic: bool)
    | New(ce: nat, ctor: nat, used: bool)

  /** What a frame does: nothing more, throw, keep a reference to $this, send an object to
      the call in preparation, give up a reference that is kept, or a call: it begins, its
      arguments are computed and sent, it runs. The rest follows. A new object that is used
      is kept. */
  datatype Code =
    | Nil
    | Throw
    | Keep(rest: Code)
    | Send(arg: Receiver, rest: Code)
    | Drop(i: nat, rest: Code)
    | Do(spec: Spec, args: Code, body: Body, rest: Code)

  /** A function: code, and what catches an exception from it, if anything does. */
  datatype Body = Uncaught(code: Code) | Caught(code: Code, handler: Body)

  /** The objects that the calls of a run were made on, call by call. */
  datatype Trace =
    | Over
    | Step(obj: Object?, args: Trace, body: Trace, rest: Trace)
    | Tried(code: Trace, handler: Trace)

  /** What code comes to: the objects kept and those on the argument stack as it ends, and
      whether it ends with an exception. A trace that does not fit gets stuck. */
  datatype Outcome = Stuck | Ran(kept: seq<Object>, args: seq<Object>, thrown: bool)

  function Meant(r: Receiver, thisObj: Object?, kept: seq<Object>): Object? {
    match r
    case This => thisObj
    case Kept(i) => if i < |kept| then kept[i] else null
  }

  /** The call can be one on obj. */
  predicate Suits(spec: Spec, obj: Object?, thisObj: Object?, kept: seq<Object>) {
    match spec
    case ByName(_) => obj == null
    case Closure(bound, _, _) => obj == if bound.Some? then Meant(bound.value, thisObj, kept) else null
    case Method(r, _, _, isStatic) =>
      var o := Meant(r, thisObj, kept);
      if isStatic then obj == null else obj != null && o != null && (obj == o || o.isRef)
    case Static(_, _, _, isStatic) => obj == if isStatic then null else thisObj
    case New(_, _, _) => obj != null
  }

  /** Code, step by step, in a frame with that $this, that prepares a call or not. Nothing
      runs after a throw. */
  function RunOf(code: Code, t: Trace, thisObj: Object?, preparing: bool, kept: seq<Object>, args: seq<Object>): Outcome
    decreases code, 1
  {
    match code
    case Nil => Ran(kept, args, false)
    case Throw => Ran(kept, args, true)
    case _ =>
      if !t.Step? then Stuck
      else match FirstOf(code, t, thisObj, preparing, kept, args)
        case Stuck => Stuck
        case Ran(k, a, thrown) => if thrown then Ran(k, a, true) else RunOf(code.rest, t.rest, thisObj, preparing, k, a)
  }

  /** The first step. A call takes its arguments off the stack however it ends, and passes on
      what its body throws; one whose arguments throw is not made. */
  function FirstOf(code: Code, t: Trace, thisObj: Object?, preparing: bool, kept: seq<Object>, args: seq<Object>): Outcome
    requires !code.Nil? && !code.Throw? && t.Step?
    decreases code, 0
  {
    match code
    case Keep(_) => Ran(if thisObj == null then kept else kept + [thisObj], args, false)
    case Send(r, _) =>
      var o := Meant(r, thisObj, kept);
      Ran(kept, if o == null || !preparing then args else args + [o], false)
    case Drop(i, _) => Ran(if i < |kept| then kept[..i] + kept[i + 1..] else kept, args, false)
    case Do(spec, sent, body, _) =>
      if spec.Method? && Meant(spec.receiver, thisObj, kept) == null then Ran(kept, args, false)
      else if !Suits(spec, t.obj, thisObj, kept) then Stuck
      else match RunOf(sent, t.args, thisObj, true, kept, args)
        case Stuck => Stuck
        case Ran(k, a, thrown) =>
          if thrown then Ran(k, a, true)
          else match EscapeOf(body, t.body, t.obj, k, a)
            case Stuck => Stuck
            case Ran(k1, _, threw) =>
              Ran(if !threw && spec.New? && spec.used && t.obj != null then k1 + [t.obj] else k1, args, threw)
  }

  /** A function: what its code throws goes to the handler, and out if there is none. */
  function EscapeOf(body: Body, t: Trace, thisObj: Object?, kept: seq<Object>, args: seq<Object>): Outcome {
    match body
    case Uncaught(code) =>
      (match RunOf(code, t, thisObj, false, kept, args)
       case Stuck => Stuck
       case Ran(k, _, thrown) => Ran(k, args, thrown))
    case Caught(code, handler) =>
      if !t.Tried? then Stuck
      else match RunOf(code, t.code, thisObj, false, kept, args)
        case Stuck => Stuck
        case Ran(k, _, thrown) => if thrown then EscapeOf(handler, t.handler, thisObj, k, args) else Ran(k, args, false)
  }

  /** The registers of a calling frame while the callee runs: EX(fbc), EX(current_object),
      EX(called_scope) with its bits, EX(current_this). */
  datatype Suspended = Suspended(fbc: Option<nat>, obj: Object?, scope: Scope, thisObj: Object?)

  /** The objects that variables, results and arguments hold. */
  ghost function Own(x: Executor): seq<Object>
    reads x`kept, x`args
  {
    x.kept + x.args
  }

  ghost function One(o: Object?): multiset<Object> {
    if o == null then multiset{} else multiset{o}
  }

  /** What is kept, what pending calls hold, and $this are references of their own. */
  ghost predicate Counted(held: multiset<Object>, kept: seq<Object>, calls: seq<Call>, thisObj: Object?) {
    Refs(kept) + HeldAll(calls) + One(thisObj) <= held
  }

  /** No object that something holds is marked as failed. */
  ghost predicate Unmarked(x: Executor)
    reads x`held, x`objects, x.objects`ctorFailed
  {
    forall o <- x.objects :: x.held[o] > 0 ==> !o.ctorFailed
  }

  /** References other than those that are kept or that pending calls hold are the same at
      both times. */
  ghost predicate Balanced(held: multiset<Object>, kept: seq<Object>, calls: seq<Call>,
      held': multiset<Object>, kept': seq<Object>, calls': seq<Call>)
  {
    held' + HeldAll(calls) + Refs(kept) == held + HeldAll(calls') + Refs(kept')
  }

  lemma BalancedTwice(held: multiset<Object>, kept: seq<Object>, calls: seq<Call>,
      held1: multiset<Object>, kept1: seq<Object>, calls1: seq<Call>,
      held2: multiset<Object>, kept2: seq<Object>, calls2: seq<Call>)
    requires Balanced(held, kept, calls, held1, kept1, calls1) && Balanced(held1, kept1, calls1, held2, kept2, calls2)
    ensures Balanced(held, kept, calls, held2, kept2, calls2)
  {
    hide HeldAll, Refs;
    SumTwice(held, HeldAll(calls), Refs(kept), held1, HeldAll(calls1), Refs(kept1), held2, HeldAll(calls2), Refs(kept2));
  }

  lemma SumTwice<T>(a: multiset<T>, b: multiset<T>, c: multiset<T>, a1: multiset<T>, b1: multiset<T>, c1: multiset<T>,
      a2: multiset<T>, b2: multiset<T>, c2: multiset<T>)
    requires a1 + b + c == a + b1 + c1 && a2 + b1 + c1 == a1 + b2 + c2
    ensures a2 + b + c == a + b2 + c2
  {
    forall t: T ensures (a2 + b + c)[t] == (a + b2 + c2)[t] {
      assert (a1 + b + c)[t] == (a + b1 + c1)[t];
      assert (a2 + b1 + c1)[t] == (a1 + b2 + c2)[t];
    }
  }

  lemma StillCounted(held: multiset<Object>, kept: seq<Object>, calls: seq<Call>,
      held': multiset<Object>, kept': seq<Object>, calls': seq<Call>, thisObj: Object?)
    requires Counted(held, kept, calls, thisObj) && Balanced(held, kept, calls, held', kept', calls')
    ensures Counted(held', kept', calls', thisObj) && HeldAll(calls') <= held'
  {
    hide HeldAll, Refs, One;
    SumWithin(held, HeldAll(calls), Refs(kept), One(thisObj), held', HeldAll(calls'), Refs(kept'));
  }

  lemma SumWithin<T>(a: multiset<T>, b: multiset<T>, c: multiset<T>, d: multiset<T>,
      a1: multiset<T>, b1: multiset<T>, c1: multiset<T>)
    requires c + b + d <= a && a1 + b + c == a + b1 + c1
    ensures c1 + b1 + d <= a1 && b1 <= a1
  {
    forall t: T ensures (c1 + b1 + d)[t] <= a1[t] {
      assert (c + b + d)[t] <= a[t];
      assert (a1 + b + c)[t] == (a + b1 + c1)[t];
    }
    assert b1 <= c1 + b1 + d;
  }

  /** The calls pending all along do not matter. */
  lemma BalancedUnder(held: multiset<Object>, kept: seq<Object>, calls: seq<Call>,
      held': multiset<Object>, kept': seq<Object>, calls': seq<Call>)
    requires Balanced(held, kept, calls, held', kept', calls)
    ensures Balanced(held, kept, calls', held', kept', calls')
  {
    hide HeldAll, Refs;
    SumUnder(held, HeldAll(calls), Refs(kept), held', Refs(kept'), HeldAll(calls'));
  }

  lemma SumUnder<T>(a: multiset<T>, b: multiset<T>, c: multiset<T>, a1: multiset<T>, c1: multiset<T>, b1: multiset<T>)
    requires a1 + b + c == a + b + c1
    ensures a1 + b1 + c == a + b1 + c1
  {
    forall t: T ensures (a1 + b1 + c)[t] == (a + b1 + c1)[t] {
      assert (a1 + b + c)[t] == (a + b + c1)[t];
    }
  }

  function Find(x: Executor, r: Receiver): Object?
    reads x`kept, x`thisObj
  {
    match r
    case This => x.thisObj
    case Kept(i) => if i < |x.kept| then x.kept[i] else null
  }

  /** The object that a call names, if any. */
  function Target(x: Executor, spec: Spec): Object?
    reads x`kept, x`thisObj
  {
    match spec
    case Closure(Some(r), _, _) => Find(x, r)
    case Method(r, _, _, _) => Find(x, r)
    case _ => null
  }

  /** What the call names is what it is made on. */
  lemma SuitsIs(x: Executor, spec: Spec, obj: Object?)
    ensures spec.Closure? && obj == Target(x, spec) ==> Suits(spec, obj, x.thisObj, x.kept)
    ensures spec.Method? && Target(x, spec) != null ==>
      (Suits(spec, obj, x.thisObj, x.kept) <==>
        if spec.isStatic then obj == null else obj != null && (obj == Target(x, spec) || Target(x, spec).isRef))
    ensures spec.ByName? && obj == null ==> Suits(spec, obj, x.thisObj, x.kept)
    ensures spec.Static? && obj == (if spec.isStatic then null else x.thisObj) ==> Suits(spec, obj, x.thisObj, x.kept)
    ensures spec.New? && obj != null ==> Suits(spec, obj, x.thisObj, x.kept)
  {
  }

  /** A method call needs an object. */
  predicate CanBegin(x: Executor, spec: Spec)
    reads x`kept, x`thisObj
  {
    spec.Method? ==> Target(x, spec) != null
  }

  lemma FoundHeld(x: Executor, calls: seq<Call>, r: Receiver)
    requires x.Valid() && Counted(x.held, Own(x), calls, x.thisObj) && Unmarked(x) && Find(x, r) != null
    ensures Find(x, r) in x.held && Find(x, r) in x.objects && !Find(x, r).ctorFailed
  {
    hide HeldAll;
    assert r.Kept? ==> Find(x, r) in Own(x);
    assert r.This? ==> Find(x, r) in One(x.thisObj);
    assert Find(x, r) in Refs(Own(x)) + HeldAll(calls) + One(x.thisObj);
  }

  lemma OneMore(e: Registers, calls: seq<Call>, c: Call)
    ensures Current(e, calls + [c]) == RegistersOf(c)
    ensures SavedAll(e, calls + [c]) == SavedAll(e, calls) + Saved(Current(e, calls), c)
    ensures HeldAll(calls + [c]) == HeldAll(calls) + Held(c)
  {
    assert (calls + [c])[..|calls|] == calls;
  }

  lemma ThisHeld(x: Executor, calls: seq<Call>)
    requires x.Valid() && Counted(x.held, Own(x), calls, x.thisObj) && Unmarked(x)
    ensures x.thisObj != null ==> x.thisObj in x.held && x.thisObj in x.objects && !x.thisObj.ctorFailed
  {
    if x.thisObj != null {
      FoundHeld(x, calls, This);
    }
  }

  lemma TargetHeld(x: Executor, spec: Spec, calls: seq<Call>)
    requires x.Valid() && Counted(x.held, Own(x), calls, x.thisObj) && Unmarked(x) && Target(x, spec) != null
    ensures Target(x, spec) in x.objects && !Target(x, spec).ctorFailed
  {
    FoundHeld(x, calls, if spec.Method? then spec.receiver else spec.bound.value);
  }

  method StartClosure(x: Executor, spec: Spec, ghost calls: seq<Call>) returns (ghost c: Call)
    requires spec.Closure? && x.Valid() && Counted(x.held, Own(x), calls, x.thisObj) && Unmarked(x)
    modifies x, x.Repr
    ensures x.Valid() && fresh(x.Repr - old(x.Repr))
    ensures x.thisObj == old(x.thisObj) && x.kept == old(x.kept) && x.args == old(x.args) && old(x.objects) <= x.objects
    ensures x.argTypes.Contents() == old(x.argTypes.Contents()) + Saved(old(x.Regs()), c)
    ensures x.Regs() == RegistersOf(c) && x.held == old(x.held) + Held(c)
    ensures Suits(spec, c.obj, x.thisObj, x.kept)
    ensures !c.ctor && (c.obj != null ==> !c.obj.ctorFailed)
    ensures forall o <- old(x.objects) :: o.ctorFailed == old(o.ctorFailed)
  {
    var o := Target(x, spec);
    hide *;
    if o != null {
      TargetHeld(x, spec, calls);
    }
    c := x.InitClosure(o, spec.ce, spec.fn);
    SuitsIs(x, spec, c.obj);
  }

  method StartMethod(x: Executor, spec: Spec, ghost calls: seq<Call>) returns (ghost c: Call)
    requires spec.Method? && CanBegin(x, spec) && x.Valid() && Counted(x.held, Own(x), calls, x.thisObj) && Unmarked(x)
    modifies x, x.Repr
    ensures x.Valid() && fresh(x.Repr - old(x.Repr))
    ensures x.thisObj == old(x.thisObj) && x.kept == old(x.kept) && x.args == old(x.args) && old(x.objects) <= x.objects
    ensures x.argTypes.Contents() == old(x.argTypes.Contents()) + Saved(old(x.Regs()), c)
    ensures x.Regs() == RegistersOf(c) && x.held == old(x.held) + Held(c)
    ensures Suits(spec, c.obj, x.thisObj, x.kept)
    ensures !c.ctor && (c.obj != null ==> !c.obj.ctorFailed)
    ensures forall o <- old(x.objects) :: o.ctorFailed == old(o.ctorFailed)
  {
    var o := Target(x, spec);
    assert o != null;
    hide *;
    TargetHeld(x, spec, calls);
    c := x.InitMethod(o, spec.fn, spec.ce, spec.isStatic);
    SuitsIs(x, spec, c.obj);
  }

  /** The calls of functions and of methods of a class. */
  method StartPlain(x: Executor, spec: Spec, ghost calls: seq<Call>) returns (ghost c: Call)
    requires spec.ByName? || spec.Static?
    requires x.calledScope == DecodeCtor(x.calledScope)
    requires x.Valid() && Counted(x.held, Own(x), calls, x.thisObj) && Unmarked(x)
    modifies x, x.Repr
    ensures x.Valid() && fresh(x.Repr - old(x.Repr))
    ensures x.thisObj == old(x.thisObj) && x.kept == old(x.kept) && x.args == old(x.args) && old(x.objects) <= x.objects
    ensures x.argTypes.Contents() == old(x.argTypes.Contents()) + Saved(old(x.Regs()), c)
    ensures x.Regs() == RegistersOf(c) && x.held == old(x.held) + Held(c)
    ensures Suits(spec, c.obj, x.thisObj, x.kept)
    ensures !c.ctor && (c.obj != null ==> !c.obj.ctorFailed)
    ensures forall o <- old(x.objects) :: o.ctorFailed == old(o.ctorFailed)
  {
    hide *;
    ThisHeld(x, calls);
    if spec.ByName? {
      c := x.InitByName(spec.fn);
    } else {
      c := x.InitStatic(spec.ce, spec.thisCe, spec.fn, spec.isStatic);
    }
    SuitsIs(x, spec, c.obj);
  }

  method Start(x: Executor, spec: Spec, ghost calls: seq<Call>) returns (ghost c: Call)
    requires x.calledScope == DecodeCtor(x.calledScope) && CanBegin(x, spec)
    requires x.Valid() && Counted(x.held, Own(x), calls, x.thisObj) && Unmarked(x)
    modifies x, x.Repr
    ensures x.Valid() && fresh(x.Repr - old(x.Repr))
    ensures x.thisObj == old(x.thisObj) && x.kept == old(x.kept) && x.args == old(x.args) && old(x.objects) <= x.objects
    ensures x.argTypes.Contents() == old(x.argTypes.Contents()) + Saved(old(x.Regs()), c)
    ensures x.Regs() == RegistersOf(c) && x.held == old(x.held) + Held(c)
    ensures Suits(spec, c.obj, x.thisObj, x.kept) && c.ctor == spec.New? && (c.ctor ==> c.used == spec.used)
    ensures c.obj != null ==> !c.obj.ctorFailed
    ensures c.ctor ==> c.obj != null && c.obj !in old(x.objects)
    ensures forall o <- old(x.objects) :: o.ctorFailed == old(o.ctorFailed)
  {
    hide *;
    if spec.New? {
      c := x.New(spec.ce, spec.ctor, spec.used);
      SuitsIs(x, spec, c.obj);
    } else if spec.ByName? || spec.Static? {
      c := StartPlain(x, spec, calls);
    } else if spec.Closure? {
      c := StartClosure(x, spec, calls);
    } else {
      c := StartMethod(x, spec, calls);
    }
  }

  method Begin(x: Executor, spec: Spec, ghost e: Registers, ghost base: seq<Word>, ghost calls: seq<Call>)
    returns (ghost c: Call)
    requires x.Valid() && x.Pending(e, base, calls) && CanBegin(x, spec)
    requires Counted(x.held, Own(x), calls, x.thisObj) && Unmarked(x)
    modifies x, x.Repr
    ensures x.Valid() && fresh(x.Repr - old(x.Repr))
    ensures x.thisObj == old(x.thisObj) && old(x.objects) <= x.objects && x.args == old(x.args) && x.kept == old(x.kept)
    ensures Suits(spec, c.obj, x.thisObj, x.kept) && c.ctor == spec.New? && (c.ctor ==> c.used == spec.used)
    ensures x.Pending(e, base, calls + [c]) && Unmarked(x)
    ensures Balanced(old(x.held), old(Own(x)), calls, x.held, Own(x), calls + [c])
    ensures c.ctor ==> c.obj != null && c.obj !in old(x.objects)
    ensures forall o <- old(x.objects) :: o.ctorFailed == old(o.ctorFailed)
  {
    ghost var r, held, kept := x.Regs(), x.held, Own(x);
    BeforeCall(x, e, base, calls);
    hide *;
    OwnIs(x);
    c := Start(x, spec, calls);
    OwnIs(x);
    MorePending(x, e, base, calls, c, r, held, kept);
    MoreUnmarked(x, c, held);
  }

  lemma BeforeCall(x: Executor, e: Registers, base: seq<Word>, calls: seq<Call>)
    requires x.Valid() && x.Pending(e, base, calls) && Unmarked(x)
    ensures x.Regs() == Current(e, calls) && x.argTypes.Contents() == base + SavedAll(e, calls)
    ensures calls == [] <==> x.fbc == None
    ensures x.calledScope == DecodeCtor(x.calledScope) && e.scope == DecodeCtor(e.scope) && e.fbc.None?
    ensures HeldAll(calls) <= x.held
    ensures forall o <- x.held :: o in x.objects && !o.ctorFailed
  {
    hide SavedAll, HeldAll;
  }

  lemma MorePending(x: Executor, e: Registers, base: seq<Word>, calls: seq<Call>, c: Call, r: Registers,
      held: multiset<Object>, kept: seq<Object>)
    requires x.Valid() && r == Current(e, calls) && x.argTypes.Contents() == base + SavedAll(e, calls) + Saved(r, c)
    requires e.scope == DecodeCtor(e.scope) && e.fbc.None?
    requires x.Regs() == RegistersOf(c) && x.held == held + Held(c) && HeldAll(calls) <= held
    ensures x.Pending(e, base, calls + [c])
    ensures Balanced(held, kept, calls, x.held, kept, calls + [c])
  {
    hide Held, SavedAll, HeldAll, Saved, Refs, Executor.Valid;
    OneMore(e, calls, c);
    assert base + SavedAll(e, calls) + Saved(r, c) == base + (SavedAll(e, calls) + Saved(r, c));
  }

  lemma MoreUnmarked(x: Executor, c: Call, held: multiset<Object>)
    requires x.held == held + Held(c) && forall o <- held :: !o.ctorFailed
    requires c.obj != null ==> !c.obj.ctorFailed
    ensures Unmarked(x)
  {
    HeldOnly(c);
    hide Held;
  }

  lemma HeldOnly(c: Call)
    ensures forall o <- Held(c) :: o == c.obj
  {
  }

  /** What the calling frame keeps while it runs call c, which had saved r. */
  ghost function Suspend(r: Registers, c: Call, thisObj: Object?): Suspended {
    Suspended(r.fbc, r.obj, if c.ctor then EncodeCtor(r.scope, c.used) else r.scope, thisObj)
  }

  /** The start of zend_do_fcall_common_helper: the call c on top, which had saved r over
      the words below, gets a frame of its own. */
  method Enter(x: Executor, ghost below: seq<Word>, ghost r: Registers, ghost c: Call) returns (f: Suspended)
    requires x.Valid() && x.Regs() == RegistersOf(c) && x.argTypes.Contents() == below + Saved(r, c)
    modifies x`fbc, x`obj, x`calledScope, x`thisObj, x.argTypes
    ensures x.Valid() && x.Repr == old(x.Repr)
    ensures x.Regs() == NoCall && x.thisObj == c.obj && x.argTypes.Contents() == below
    ensures f == Suspend(r, c, old(x.thisObj)) && f.thisObj == old(x.thisObj)
  {
    hide Saved;
    var currentThis, callee := x.thisObj, x.obj;
    x.PopScope(below, r, c);
    x.PopCall(below, r);
    f := Suspended(x.fbc, x.obj, x.calledScope, currentThis);
    x.Load(NoCall, callee);
  }

  /** The reference that a call leaves if it returns: that of a new object that is used. */
  function Result(c: Call, thrown: bool): multiset<Object> {
    if !thrown && c.obj != null && c.ctor && c.used then multiset{c.obj} else multiset{}
  }

  lemma SuspendedBits(r: Registers, c: Call, thisObj: Object?)
    requires r.scope == DecodeCtor(r.scope)
    ensures var f := Suspend(r, c, thisObj);
      && f.fbc == r.fbc && f.obj == r.obj && DecodeCtor(f.scope) == r.scope
      && f.scope.ctorCall == c.ctor && (c.ctor ==> f.scope.ctorUsed == c.used)
  {
  }

  /** The references before and after a call gave up its own and left that of its result. */
  ghost predicate Left(held: multiset<Object>, c: Call, thrown: bool, held': multiset<Object>) {
    held' == held - Held(c) + Result(c, thrown)
  }

  /** What is kept after call c. */
  function KeptAfter(kept: seq<Object>, c: Call, thrown: bool): seq<Object> {
    if !thrown && c.obj != null && c.ctor && c.used then kept + [c.obj] else kept
  }

  ghost predicate Gained(kept: seq<Object>, c: Call, thrown: bool, kept': seq<Object>) {
    Refs(kept') == Refs(kept) + Result(c, thrown)
  }

  /** The callee gives up $this, and its caller resumes. */
  method Resume(x: Executor, f: Suspended, exception: bool, ghost r: Registers, ghost c: Call)
    requires x.Valid() && x.thisObj == c.obj && Held(c) <= x.held && r.scope == DecodeCtor(r.scope)
    requires x.thisObj != null ==> x.thisObj in x.objects
    requires f == Suspend(r, c, f.thisObj)
    modifies x`fbc, x`obj, x`calledScope, x`thisObj, x`held, x.objects
    ensures x.Valid() && x.Repr == old(x.Repr) && x.objects == old(x.objects)
    ensures x.Regs() == r && x.thisObj == f.thisObj
    ensures Left(old(x.held), c, exception, x.held)
    ensures forall o <- x.objects :: o.ctorFailed <==>
      old(o.ctorFailed) || (exception && c.ctor && o == c.obj && x.held[o] == 0)
  {
    hide *;
    LeavingHeld(x.held, c, exception);
    SuspendedBits(r, c, f.thisObj);
    if x.thisObj != null {
      x.Abandon(x.thisObj, exception && f.scope.ctorCall, f.scope.ctorUsed);
    }
    x.Load(Registers(f.fbc, f.obj, DecodeCtor(f.scope)), f.thisObj);
  }

  /** The new object of a call that returns is kept if it is used. */
  method KeepResult(x: Executor, f: Suspended, exception: bool, ghost r: Registers, ghost c: Call)
    requires f == Suspend(r, c, f.thisObj) && r.scope == DecodeCtor(r.scope) && x.thisObj == c.obj
    modifies x`kept
    ensures x.kept == KeptAfter(old(x.kept), c, exception)
  {
    SuspendedBits(r, c, f.thisObj);
    if !exception && x.thisObj != null && f.scope.ctorCall && f.scope.ctorUsed {
      x.kept := x.kept + [x.thisObj];
    }
  }

  /** zend_leave_helper: the callee gives up $this, and its caller resumes. A new object is
      marked if its constructor threw and nothing else holds it; without an exception it is
      kept if it is used. */
  method Leave(x: Executor, f: Suspended, exception: bool, ghost r: Registers, ghost c: Call)
    requires x.Valid() && x.thisObj == c.obj && Held(c) <= x.held && r.scope == DecodeCtor(r.scope)
    requires x.thisObj != null ==> x.thisObj in x.objects
    requires f == Suspend(r, c, f.thisObj)
    modifies x`fbc, x`obj, x`calledScope, x`thisObj, x`held, x`kept, x.objects
    ensures x.Valid() && x.Repr == old(x.Repr) && x.objects == old(x.objects)
    ensures x.Regs() == r && x.thisObj == f.thisObj
    ensures Left(old(x.held), c, exception, x.held) && x.kept == KeptAfter(old(x.kept), c, exception)
    ensures forall o <- x.objects :: o.ctorFailed <==>
      old(o.ctorFailed) || (exception && c.ctor && o == c.obj && x.held[o] == 0)
  {
    hide *;
    KeepResult(x, f, exception, r, c);
    Resume(x, f, exception, r, c);
  }

  lemma LeavingHeld(held: multiset<Object>, c: Call, exception: bool)
    requires Held(c) <= held
    ensures c.obj == null ==> Left(held, c, exception, held)
    ensures c.obj != null ==> var n := if exception && c.ctor && c.used then 2 else 1;
      held[c.obj] >= n && Left(held, c, exception, held[c.obj := held[c.obj] - n])
  {
    if c.obj != null {
      assert held[c.obj] >= Held(c)[c.obj];
    }
  }

  /** The end of call c, for all that the caller counts. */
  method Return(x: Executor, f: Suspended, thrown: bool, ghost r: Registers, ghost calls: seq<Call>, ghost c: Call)
    requires x.Valid() && x.thisObj == c.obj && r.scope == DecodeCtor(r.scope) && f == Suspend(r, c, f.thisObj)
    requires Counted(x.held, Own(x), calls + [c], f.thisObj) && Unmarked(x)
    modifies x`fbc, x`obj, x`calledScope, x`thisObj, x`held, x`kept, x.objects
    ensures x.Valid() && x.Repr == old(x.Repr) && x.objects == old(x.objects)
    ensures x.Regs() == r && x.thisObj == f.thisObj && Unmarked(x)
    ensures x.kept == KeptAfter(old(x.kept), c, thrown)
    ensures Balanced(old(x.held), old(Own(x)), calls + [c], x.held, Own(x), calls)
    ensures forall o <- x.objects :: o.ctorFailed <==>
      old(o.ctorFailed) || (thrown && c.ctor && o == c.obj && x.held[o] == 0)
  {
    hide *;
    ghost var held, own, kept := x.held, Own(x), x.kept;
    BeforeReturn(x, calls, c, f.thisObj);
    OwnIs(x);
    Leave(x, f, thrown, r, c);
    AfterLeave(x, held, own, kept, calls, c, thrown);
  }

  lemma AfterLeave(x: Executor, held: multiset<Object>, own: seq<Object>, kept: seq<Object>, calls: seq<Call>, c: Call, thrown: bool)
    requires own == kept + x.args && x.kept == KeptAfter(kept, c, thrown)
    requires Held(c) <= held && Left(held, c, thrown, x.held)
    requires forall o <- x.objects :: held[o] > 0 && x.held[o] > 0 ==> !o.ctorFailed
    ensures Balanced(held, own, calls + [c], x.held, Own(x), calls) && Unmarked(x)
  {
    hide *;
    OwnGained(x, own, kept, c, thrown);
    Returned(held, own, x.held, Own(x), calls, c, thrown);
    ReturnedUnmarked(x, held);
  }

  lemma OwnIs(x: Executor)
    ensures Own(x) == x.kept + x.args
  {
  }

  lemma OwnGained(x: Executor, own: seq<Object>, kept: seq<Object>, c: Call, thrown: bool)
    requires own == kept + x.args && x.kept == KeptAfter(kept, c, thrown)
    ensures Gained(own, c, thrown, Own(x))
  {
  }

  /** zend_vm_stack_clear_multiple: the arguments from n on are released. */
  method ClearArgs(x: Executor, n: nat, ghost calls: seq<Call>)
    requires x.Valid() && n <= |x.args| && Counted(x.held, Own(x), calls, x.thisObj) && Unmarked(x)
    modifies x`args, x`held, x.objects`refcount
    ensures x.Valid() && Unmarked(x) && x.args == old(x.args)[..n]
    ensures Balanced(old(x.held), old(Own(x)), calls, x.held, Own(x), calls)
    ensures Released(old(x.held), old(x.args)[n..], x.held)
  {
    hide *;
    ghost var held, own, kept, args, cleared := x.held, Own(x), x.kept, x.args, x.args[n..];
    OwnIs(x);
    UnmarkedIs(x);
    ArgsWithin(x, cleared, n, calls);
    x.PopArgs(n);
    ArgsCleared(x, held, own, kept, args, n, calls);
    LessHeld(held, cleared, x.held);
    ReturnedUnmarked(x, held);
  }

  lemma LessHeld(held: multiset<Object>, os: seq<Object>, held': multiset<Object>)
    requires Released(held, os, held')
    ensures held' <= held
  {
  }

  lemma UnmarkedIs(x: Executor)
    requires Unmarked(x)
    ensures forall o <- x.objects :: x.held[o] > 0 ==> !o.ctorFailed
  {
  }

  lemma ArgsWithin(x: Executor, cleared: seq<Object>, n: nat, calls: seq<Call>)
    requires n <= |x.args| && cleared == x.args[n..] && Counted(x.held, Own(x), calls, x.thisObj)
    ensures Refs(cleared) <= x.held
  {
    assert Own(x) == (x.kept + x.args[..n]) + cleared;
    assert Refs(Own(x)) == Refs(x.kept + x.args[..n]) + Refs(cleared);
    hide Refs, HeldAll, One;
  }

  lemma ArgsCleared(x: Executor, held: multiset<Object>, own: seq<Object>, kept: seq<Object>, args: seq<Object>,
      n: nat, calls: seq<Call>)
    requires own == kept + args && x.kept == kept && n <= |args| && x.args == args[..n] && Released(held, args[n..], x.held)
    ensures Balanced(held, own, calls, x.held, Own(x), calls)
  {
    assert own == Own(x) + args[n..];
    assert Refs(own) == Refs(Own(x)) + Refs(args[n..]);
    hide Refs, HeldAll;
  }

  /** The callee leaves, and its arguments, from n on, are released. Whether anything holds an
      object whose constructor failed is judged before that. */
  method Finish(x: Executor, f: Suspended, thrown: bool, n: nat, ghost r: Registers, ghost calls: seq<Call>, ghost c: Call)
    requires x.Valid() && x.thisObj == c.obj && r.scope == DecodeCtor(r.scope) && f == Suspend(r, c, f.thisObj)
    requires Counted(x.held, Own(x), calls + [c], f.thisObj) && Unmarked(x) && n <= |x.args|
    modifies x`fbc, x`obj, x`calledScope, x`thisObj, x`held, x`kept, x`args, x.objects
    ensures x.Valid() && x.Repr == old(x.Repr) && x.objects == old(x.objects)
    ensures x.Regs() == r && x.thisObj == f.thisObj && Unmarked(x) && x.args == old(x.args)[..n]
    ensures x.kept == KeptAfter(old(x.kept), c, thrown)
    ensures Balanced(old(x.held), old(Own(x)), calls + [c], x.held, Own(x), calls)
    ensures forall o <- x.objects :: o.ctorFailed <==>
      old(o.ctorFailed) || (thrown && c.ctor && o == c.obj && x.held[o] == 0 && o !in old(x.args)[n..])
  {
    hide *;
    ghost var held, own, args := x.held, Own(x), x.args[n..];
    Return(x, f, thrown, r, calls, c);
    ghost var held1, own1 := x.held, Own(x);
    StillCounted(held, own, calls + [c], held1, own1, calls, x.thisObj);
    ClearArgs(x, n, calls);
    BalancedTwice(held, own, calls + [c], held1, own1, calls, x.held, Own(x), calls);
    NoneHolds(held1, x.held, args);
  }

  lemma NoneHolds(held: multiset<Object>, held': multiset<Object>, args: seq<Object>)
    requires Released(held, args, held')
    ensures forall o: Object :: held[o] == 0 <==> held'[o] == 0 && o !in args
  {
    forall o: Object ensures held[o] == 0 <==> held'[o] == 0 && o !in args {
      assert Refs(args)[o] <= held[o];
      assert o in args <==> o in multiset(args);
    }
  }

  lemma BeforeReturn(x: Executor, calls: seq<Call>, c: Call, thisObj: Object?)
    requires x.Valid() && x.thisObj == c.obj && Counted(x.held, Own(x), calls + [c], thisObj) && Unmarked(x)
    ensures Held(c) <= x.held && (x.thisObj != null ==> x.thisObj in x.objects)
    ensures forall o <- x.objects :: x.held[o] > 0 ==> !o.ctorFailed
  {
    OneMore(NoCall, calls, c);
    assert Held(c) <= x.held;
    if c.obj != null {
      assert c.obj in Held(c);
    }
  }

  lemma Returned(held: multiset<Object>, kept: seq<Object>, held': multiset<Object>, kept': seq<Object>,
      calls: seq<Call>, c: Call, thrown: bool)
    requires Held(c) <= held && Left(held, c, thrown, held')
    requires Gained(kept, c, thrown, kept')
    ensures Balanced(held, kept, calls + [c], held', kept', calls) && held' <= held
  {
    OneMore(NoCall, calls, c);
    assert Result(c, thrown) <= Held(c);
    assert held' == held - Held(c) + Result(c, thrown) && Refs(kept') == Refs(kept) + Result(c, thrown);
    hide *;
    SumReturned(held, HeldAll(calls), Refs(kept), Held(c), Result(c, thrown), held', Refs(kept'));
    IsBalanced(held, kept, calls + [c], held', kept', calls);
  }

  lemma IsBalanced(held: multiset<Object>, kept: seq<Object>, calls: seq<Call>,
      held': multiset<Object>, kept': seq<Object>, calls': seq<Call>)
    requires held' + HeldAll(calls) + Refs(kept) == held + HeldAll(calls') + Refs(kept')
    ensures Balanced(held, kept, calls, held', kept', calls')
  {
  }

  lemma SumReturned<T>(a: multiset<T>, b: multiset<T>, c: multiset<T>, d: multiset<T>, r: multiset<T>,
      a1: multiset<T>, c1: multiset<T>)
    requires r <= d <= a && a1 == a - d + r && c1 == c + r
    ensures a1 + (b + d) + c == a + b + c1 && a1 <= a
  {
    forall t: T ensures (a1 + (b + d) + c)[t] == (a + b + c1)[t] && a1[t] <= a[t] {
      assert r[t] <= d[t] && d[t] <= a[t];
      assert a1[t] == (a - d + r)[t];
    }
  }

  lemma ReturnedUnmarked(x: Executor, held: multiset<Object>)
    requires x.held <= held && forall o <- x.objects :: held[o] > 0 && x.held[o] > 0 ==> !o.ctorFailed
    ensures Unmarked(x)
  {
  }

  /** Runs the call c on top, whose arguments are those from n on. */
  method RunCall(x: Executor, body: Body, n: nat, ghost e: Registers, ghost base: seq<Word>, ghost calls: seq<Call>,
      ghost c: Call)
    returns (thrown: bool, ghost t: Trace)
    requires x.Valid() && x.Pending(e, base, calls + [c]) && n <= |x.args|
    requires Counted(x.held, Own(x), calls + [c], x.thisObj) && Unmarked(x)
    modifies x, x.Repr
    ensures x.Valid() && fresh(x.Repr - old(x.Repr))
    ensures x.thisObj == old(x.thisObj) && old(x.objects) <= x.objects && x.args == old(x.args)[..n]
    ensures x.Pending(e, base, calls) && Unmarked(x)
    ensures var o := EscapeOf(body, t, c.obj, old(x.kept), old(x.args));
      o.Ran? && o.thrown == thrown && x.kept == KeptAfter(o.kept, c, thrown)
    ensures Balanced(old(x.held), old(Own(x)), calls + [c], x.held, Own(x), calls)
    ensures forall o <- old(x.objects) :: o.ctorFailed <==>
      old(o.ctorFailed) || (thrown && c.ctor && o == c.obj && x.held[o] == 0 && o !in old(x.args)[n..])
    decreases body, 1
  {
    hide *;
    TopPending(x, e, base, calls, c);
    ghost var r, held, own := Current(e, calls), x.held, Own(x);
    CalleeCounted(held, own, calls, c, x.thisObj);
    var f := Enter(x, base + SavedAll(e, calls), r, c);
    thrown, t := RunBody(x, body);
    ghost var held1, own1 := x.held, Own(x);
    BalancedUnder(held, own, [], held1, own1, calls + [c]);
    StillCounted(held, own, calls + [c], held1, own1, calls + [c], f.thisObj);
    Finish(x, f, thrown, n, r, calls, c);
    StillCounted(held1, own1, calls + [c], x.held, Own(x), calls, f.thisObj);
    BalancedTwice(held, own, calls + [c], held1, own1, calls + [c], x.held, Own(x), calls);
    x.PendingIs(e, base, calls);
  }

  /** The call on top of the pending ones. */
  lemma TopPending(x: Executor, e: Registers, base: seq<Word>, calls: seq<Call>, c: Call)
    requires x.Valid() && x.Pending(e, base, calls + [c])
    ensures x.Regs() == RegistersOf(c) && x.argTypes.Contents() == base + SavedAll(e, calls) + Saved(Current(e, calls), c)
    ensures Current(e, calls).scope == DecodeCtor(Current(e, calls).scope)
    ensures e.scope == DecodeCtor(e.scope) && e.fbc.None?
  {
    hide SavedAll, HeldAll, Saved;
    OneMore(e, calls, c);
  }

  /** The callee's $this is that of its call. */
  lemma CalleeCounted(held: multiset<Object>, kept: seq<Object>, calls: seq<Call>, c: Call, thisObj: Object?)
    requires Counted(held, kept, calls + [c], thisObj)
    ensures Counted(held, kept, [], c.obj)
  {
    OneMore(NoCall, calls, c);
    assert One(c.obj) <= Held(c);
  }

  /** The frame keeps a reference to $this, if it has one. */
  method KeepThis(x: Executor, ghost calls: seq<Call>)
    requires x.Valid() && Counted(x.held, Own(x), calls, x.thisObj) && Unmarked(x)
    modifies x`held, x`kept, x.objects`refcount
    ensures x.Valid() && Unmarked(x)
    ensures x.kept == if x.thisObj == null then old(x.kept) else old(x.kept) + [x.thisObj]
    ensures Balanced(old(x.held), old(Own(x)), calls, x.held, Own(x), calls)
  {
    ThisHeld(x, calls);
    hide Executor.Valid, HeldAll, One, Counted, Refs, Balanced;
    if x.thisObj != null {
      OneMoreKept(x.held, x.kept, x.args, x.thisObj, calls);
      x.AddRef(x.thisObj);
      x.kept := x.kept + [x.thisObj];
    } else {
      Same(x.held, Own(x), calls);
    }
  }

  lemma OneMoreKept(held: multiset<Object>, kept: seq<Object>, args: seq<Object>, o: Object, calls: seq<Call>)
    ensures Balanced(held, kept + args, calls, held + multiset{o}, (kept + [o]) + args, calls)
  {
    assert Refs((kept + [o]) + args) == Refs(kept + args) + multiset{o};
    hide Refs, HeldAll;
  }

  /** SEND_VAR of an object: one more argument of the call in preparation. */
  method SendTo(x: Executor, r: Receiver, ghost calls: seq<Call>)
    requires x.Valid() && Counted(x.held, Own(x), calls, x.thisObj) && Unmarked(x)
    modifies x`held, x`args, x.objects`refcount
    ensures x.Valid() && Unmarked(x) && old(x.args) <= x.args
    ensures x.args == if Find(x, r) == null || x.fbc == None then old(x.args) else old(x.args) + [Find(x, r)]
    ensures Balanced(old(x.held), old(Own(x)), calls, x.held, Own(x), calls)
  {
    hide Executor.Valid, HeldAll, One, Counted, Refs, Balanced, Find;
    var o := Find(x, r);
    if o != null && x.fbc != None {
      FoundHeld(x, calls, r);
      OneMoreArg(x.held, x.kept, x.args, o, calls);
      x.AddRef(o);
      x.args := x.args + [o];
    } else {
      Same(x.held, Own(x), calls);
    }
  }

  lemma OneMoreArg(held: multiset<Object>, kept: seq<Object>, args: seq<Object>, o: Object, calls: seq<Call>)
    ensures Balanced(held, kept + args, calls, held + multiset{o}, kept + (args + [o]), calls)
  {
    assert Refs(kept + (args + [o])) == Refs(kept + args) + multiset{o};
    hide Refs, HeldAll;
  }

  /** A reference that is kept is given up. */
  method GiveUpKept(x: Executor, i: nat, ghost calls: seq<Call>)
    requires x.Valid() && Counted(x.held, Own(x), calls, x.thisObj) && Unmarked(x)
    modifies x`held, x`kept, x.objects`refcount
    ensures x.Valid() && Unmarked(x)
    ensures x.kept == if i < |old(x.kept)| then old(x.kept)[..i] + old(x.kept)[i + 1..] else old(x.kept)
    ensures Balanced(old(x.held), old(Own(x)), calls, x.held, Own(x), calls)
  {
    hide Executor.Valid, HeldAll, One, Counted, Refs, Balanced;
    if i < |x.kept| {
      var o := x.kept[i];
      assert o == Find(x, Kept(i));
      FoundHeld(x, calls, Kept(i));
      OneLess(x.held, x.kept, x.args, i, calls);
      x.DelRef(o);
      x.kept := x.kept[..i] + x.kept[i + 1..];
    } else {
      Same(x.held, Own(x), calls);
    }
  }

  lemma Same(held: multiset<Object>, kept: seq<Object>, calls: seq<Call>)
    ensures Balanced(held, kept, calls, held, kept, calls)
  {
  }

  lemma OneLess(held: multiset<Object>, kept: seq<Object>, args: seq<Object>, i: nat, calls: seq<Call>)
    requires i < |kept| && kept[i] in held
    ensures Balanced(held, kept + args, calls, held[kept[i] := held[kept[i]] - 1], (kept[..i] + kept[i + 1..]) + args, calls)
  {
    assert kept == kept[..i] + [kept[i]] + kept[i + 1..];
    assert Refs(kept + args) == Refs((kept[..i] + kept[i + 1..]) + args) + multiset{kept[i]};
    hide HeldAll, Refs;
  }

  /** The steps that take or give up a reference. */
  method Refer(x: Executor, code: Code, ghost t: Trace, ghost e: Registers, ghost base: seq<Word>, ghost calls: seq<Call>)
    requires (code.Keep? || code.Send? || code.Drop?) && t.Step?
    requires x.Valid() && x.Pending(e, base, calls) && Counted(x.held, Own(x), calls, x.thisObj) && Unmarked(x)
    modifies x`held, x`kept, x`args, x.objects`refcount
    ensures x.Valid() && x.Pending(e, base, calls) && Unmarked(x)
    ensures FirstOf(code, t, x.thisObj, calls != [], old(x.kept), old(x.args)) == Ran(x.kept, x.args, false)
    ensures old(x.args) <= x.args && (calls == [] ==> x.args == old(x.args))
    ensures Balanced(old(x.held), old(Own(x)), calls, x.held, Own(x), calls)
  {
    hide *;
    ghost var held, kept := x.held, Own(x);
    BeforeCall(x, e, base, calls);
    ReferIs(x, code, t, calls != []);
    if code.Keep? {
      KeepThis(x, calls);
    } else if code.Send? {
      SendTo(x, code.arg, calls);
    } else {
      GiveUpKept(x, code.i, calls);
    }
    StillCounted(held, kept, calls, x.held, Own(x), calls, x.thisObj);
    x.PendingIs(e, base, calls);
  }

  lemma ReferIs(x: Executor, code: Code, t: Trace, preparing: bool)
    requires (code.Keep? || code.Send? || code.Drop?) && t.Step?
    ensures var o := FirstOf(code, t, x.thisObj, preparing, x.kept, x.args);
      && (code.Keep? ==> o == Ran(if x.thisObj == null then x.kept else x.kept + [x.thisObj], x.args, false))
      && (code.Send? ==>
            o == Ran(x.kept, if Find(x, code.arg) == null || !preparing then x.args else x.args + [Find(x, code.arg)], false))
      && (code.Drop? ==>
            o == Ran(if code.i < |x.kept| then x.kept[..code.i] + x.kept[code.i + 1..] else x.kept, x.args, false))
  {
  }

  /** Runs code in a frame that prepares calls. An exception may leave more pending. */
  method Exec(x: Executor, code: Code, ghost e: Registers, ghost base: seq<Word>, ghost calls: seq<Call>)
    returns (thrown: bool, ghost t: Trace, ghost pending: seq<Call>)
    requires x.Valid() && x.Pending(e, base, calls)
    requires Counted(x.held, Own(x), calls, x.thisObj) && Unmarked(x)
    modifies x, x.Repr
    ensures x.Valid() && fresh(x.Repr - old(x.Repr))
    ensures x.thisObj == old(x.thisObj) && old(x.objects) <= x.objects
    ensures x.Pending(e, base, pending) && Unmarked(x) && (!thrown ==> pending == calls)
    ensures old(x.args) <= x.args && (!thrown && calls == [] ==> x.args == old(x.args))
    ensures RunOf(code, t, x.thisObj, calls != [], old(x.kept), old(x.args)) == Ran(x.kept, x.args, thrown)
    ensures Balanced(old(x.held), old(Own(x)), calls, x.held, Own(x), pending)
    ensures forall o <- old(x.objects) :: o.ctorFailed == old(o.ctorFailed)
    ensures forall c <- pending :: c in calls || (c.ctor ==> c.obj !in old(x.objects))
    decreases code, 2
  {
    hide *;
    thrown, t, pending := false, Over, calls;
    if code.Nil? || code.Throw? {
      Same(x.held, Own(x), calls);
      EndIs(code, t, x.thisObj, calls != [], x.kept, x.args);
      thrown := code.Throw?;
      return;
    }
    ghost var held, own, kept, args := x.held, Own(x), x.kept, x.args;
    thrown, t, pending := First(x, code, e, base, calls);
    if thrown {
      StopIs(code, t, x.thisObj, calls != [], kept, args);
    } else {
      ghost var held1, own1 := x.held, Own(x);
      StillCounted(held, own, calls, held1, own1, calls, x.thisObj);
      ghost var more;
      thrown, more, pending := Exec(x, code.rest, e, base, calls);
      BalancedTwice(held, own, calls, held1, own1, calls, x.held, Own(x), pending);
      MoreIs(code, t, more, x.thisObj, calls != [], kept, args);
      t := t.(rest := more);
    }
  }

  lemma EndIs(code: Code, t: Trace, thisObj: Object?, preparing: bool, kept: seq<Object>, args: seq<Object>)
    requires code.Nil? || code.Throw?
    ensures RunOf(code, t, thisObj, preparing, kept, args) == Ran(kept, args, code.Throw?)
  {
  }

  lemma StopIs(code: Code, t: Trace, thisObj: Object?, preparing: bool, kept: seq<Object>, args: seq<Object>)
    requires !code.Nil? && !code.Throw? && t.Step?
    ensures var o := FirstOf(code, t, thisObj, preparing, kept, args);
      o.Ran? && o.thrown ==> RunOf(code, t, thisObj, preparing, kept, args) == o
  {
    hide FirstOf;
  }

  lemma MoreIs(code: Code, t: Trace, more: Trace, thisObj: Object?, preparing: bool, kept: seq<Object>, args: seq<Object>)
    requires !code.Nil? && !code.Throw? && t.Step?
    ensures var o := FirstOf(code, t, thisObj, preparing, kept, args);
      o.Ran? && !o.thrown ==>
        RunOf(code, t.(rest := more), thisObj, preparing, kept, args)
          == RunOf(code.rest, more, thisObj, preparing, o.kept, o.args)
  {
    assert FirstOf(code, t, thisObj, preparing, kept, args) == FirstOf(code, t.(rest := more), thisObj, preparing, kept, args);
    hide FirstOf;
  }

  /** The first step of code. A call on what is no object is a fatal error, and not made. */
  method First(x: Executor, code: Code, ghost e: Registers, ghost base: seq<Word>, ghost calls: seq<Call>)
    returns (thrown: bool, ghost t: Trace, ghost pending: seq<Call>)
    requires !code.Nil? && !code.Throw?
    requires x.Valid() && x.Pending(e, base, calls)
    requires Counted(x.held, Own(x), calls, x.thisObj) && Unmarked(x)
    modifies x, x.Repr
    ensures x.Valid() && fresh(x.Repr - old(x.Repr))
    ensures x.thisObj == old(x.thisObj) && old(x.objects) <= x.objects
    ensures x.Pending(e, base, pending) && Unmarked(x) && (!thrown ==> pending == calls)
    ensures old(x.args) <= x.args && (!thrown && calls == [] ==> x.args == old(x.args))
    ensures t.Step? && FirstOf(code, t, x.thisObj, calls != [], old(x.kept), old(x.args)) == Ran(x.kept, x.args, thrown)
    ensures Balanced(old(x.held), old(Own(x)), calls, x.held, Own(x), pending)
    ensures forall o <- old(x.objects) :: o.ctorFailed == old(o.ctorFailed)
    ensures forall c <- pending :: c in calls || (c.ctor ==> c.obj !in old(x.objects))
    decreases code, 1
  {
    hide *;
    thrown, t, pending := false, Step(null, Over, Over, Over), calls;
    if !code.Do? {
      Refer(x, code, t, e, base, calls);
    } else if CanBegin(x, code.spec) {
      thrown, t, pending := DoCall(x, code, e, base, calls);
    } else {
      Same(x.held, Own(x), calls);
      NotMade(x, code, t, calls != []);
    }
  }

  lemma NotMade(x: Executor, code: Code, t: Trace, preparing: bool)
    requires code.Do? && !CanBegin(x, code.spec) && t.Step?
    ensures FirstOf(code, t, x.thisObj, preparing, x.kept, x.args) == Ran(x.kept, x.args, false)
  {
  }

  /** Runs the first call of code: it begins, its arguments are computed, it runs. */
  method DoCall(x: Executor, code: Code, ghost e: Registers, ghost base: seq<Word>, ghost calls: seq<Call>)
    returns (thrown: bool, ghost t: Trace, ghost pending: seq<Call>)
    requires code.Do? && CanBegin(x, code.spec)
    requires x.Valid() && x.Pending(e, base, calls)
    requires Counted(x.held, Own(x), calls, x.thisObj) && Unmarked(x)
    modifies x, x.Repr
    ensures x.Valid() && fresh(x.Repr - old(x.Repr))
    ensures x.thisObj == old(x.thisObj) && old(x.objects) <= x.objects
    ensures x.Pending(e, base, pending) && Unmarked(x) && (!thrown ==> pending == calls)
    ensures old(x.args) <= x.args && (!thrown && calls == [] ==> x.args == old(x.args))
    ensures t.Step? && FirstOf(code, t, x.thisObj, calls != [], old(x.kept), old(x.args)) == Ran(x.kept, x.args, thrown)
    ensures Balanced(old(x.held), old(Own(x)), calls, x.held, Own(x), pending)
    ensures forall o <- old(x.objects) :: o.ctorFailed == old(o.ctorFailed)
    ensures forall c <- pending :: c in calls || (c.ctor ==> c.obj !in old(x.objects))
    decreases code, 0
  {
    hide *;
    ghost var held, own, kept, args := x.held, Own(x), x.kept, x.args;
    var n := |x.args|;
    CanIs(x, code.spec);
    ghost var c := Begin(x, code.spec, e, base, calls);
    ghost var sent, ran := Over, Over;
    ghost var held1, own1, more := x.held, Own(x), calls + [c];
    StillCounted(held, own, calls, held1, own1, more, x.thisObj);
    thrown, sent, pending := Exec(x, code.args, e, base, more);
    ghost var held2, own2 := x.held, Own(x);
    BalancedTwice(held, own, calls, held1, own1, more, held2, own2, pending);
    t := Step(c.obj, sent, Over, Over);
    if thrown {
      ArgsThrew(code, t, x.thisObj, calls != [], kept, args);
    } else {
      ghost var kept2, args2 := x.kept, x.args;
      StillCounted(held1, own1, more, held2, own2, more, x.thisObj);
      thrown, ran := RunCall(x, code.body, n, e, base, calls, c);
      BalancedTwice(held, own, calls, held2, own2, more, x.held, Own(x), calls);
      pending := calls;
      t := Step(c.obj, sent, ran, Over);
      CallIs(code, t, c, x.thisObj, calls != [], kept, args, kept2, args2, thrown);
    }
  }

  lemma CanIs(x: Executor, spec: Spec)
    ensures CanBegin(x, spec) <==> CanCall(spec, x.thisObj, x.kept)
  {
  }

  predicate CanCall(spec: Spec, thisObj: Object?, kept: seq<Object>) {
    spec.Method? ==> Meant(spec.receiver, thisObj, kept) != null
  }

  lemma ArgsThrew(code: Code, t: Trace, thisObj: Object?, preparing: bool, kept: seq<Object>, args: seq<Object>)
    requires code.Do? && t.Step? && CanCall(code.spec, thisObj, kept) && Suits(code.spec, t.obj, thisObj, kept)
    ensures var o := RunOf(code.args, t.args, thisObj, true, kept, args);
      o.Ran? && o.thrown ==> FirstOf(code, t, thisObj, preparing, kept, args) == o
  {
    hide RunOf, EscapeOf, Suits;
  }

  lemma CallIs(code: Code, t: Trace, c: Call, thisObj: Object?, preparing: bool, kept: seq<Object>, args: seq<Object>,
      kept2: seq<Object>, args2: seq<Object>, thrown: bool)
    requires code.Do? && t.Step? && CanCall(code.spec, thisObj, kept) && Suits(code.spec, t.obj, thisObj, kept)
    requires t.obj == c.obj && c.ctor == code.spec.New? && (c.ctor ==> c.used == code.spec.used)
    requires RunOf(code.args, t.args, thisObj, true, kept, args) == Ran(kept2, args2, false)
    ensures var o := EscapeOf(code.body, t.body, c.obj, kept2, args2);
      o.Ran? && o.thrown == thrown ==>
        FirstOf(code, t, thisObj, preparing, kept, args) == Ran(KeptAfter(o.kept, c, thrown), args, thrown)
  {
    hide RunOf, EscapeOf, Suits;
  }

  lemma NothingPending(x: Executor)
    requires x.Valid() && x.Regs() == NoCall
    ensures x.Pending(NoCall, x.argTypes.Contents(), [])
  {
  }

  /** Runs the body of a frame. However it ends, the saved registers of the calls around
      it are as before, its own are back to those it entered with, and the references are
      those from before and those that are kept. No object that something holds is marked
      as failed, and none that there was. */
  method RunBody(x: Executor, body: Body) returns (thrown: bool, ghost t: Trace)
    requires x.Valid() && x.Regs() == NoCall && Counted(x.held, Own(x), [], x.thisObj) && Unmarked(x)
    modifies x, x.Repr
    ensures x.Valid() && fresh(x.Repr - old(x.Repr))
    ensures x.thisObj == old(x.thisObj) && old(x.objects) <= x.objects
    ensures x.Regs() == NoCall && x.argTypes.Contents() == old(x.argTypes.Contents()) && x.args == old(x.args)
    ensures EscapeOf(body, t, x.thisObj, old(x.kept), old(x.args)) == Ran(x.kept, x.args, thrown)
    ensures Balanced(old(x.held), old(Own(x)), [], x.held, Own(x), []) && Unmarked(x)
    ensures forall o <- old(x.objects) :: o.ctorFailed == old(o.ctorFailed)
    decreases body, 0
  {
    hide *;
    ghost var held, own, kept, args := x.held, Own(x), x.kept, x.args;
    thrown, t := RunAndUnwind(x, body.code);
    ghost var kept1 := x.kept;
    if body.Uncaught? {
      PassesOn(body, t, x.thisObj, kept, args, thrown);
    } else if !thrown {
      t := Tried(t, Over);
      NotCaught(body, t, x.thisObj, kept, args);
    } else {
      ghost var held1, own1, code := x.held, Own(x), t;
      StillCounted(held, own, [], held1, own1, [], x.thisObj);
      thrown, t := RunBody(x, body.handler);
      BalancedTwice(held, own, [], held1, own1, [], x.held, Own(x), []);
      t := Tried(code, t);
      IsCaught(body, t, x.thisObj, kept, args, kept1);
    }
  }

  lemma PassesOn(body: Body, t: Trace, thisObj: Object?, kept: seq<Object>, args: seq<Object>, thrown: bool)
    requires body.Uncaught?
    ensures var o := RunOf(body.code, t, thisObj, false, kept, args);
      o.Ran? && o.thrown == thrown ==> EscapeOf(body, t, thisObj, kept, args) == Ran(o.kept, args, thrown)
  {
    hide RunOf;
  }

  lemma NotCaught(body: Body, t: Trace, thisObj: Object?, kept: seq<Object>, args: seq<Object>)
    requires body.Caught? && t.Tried?
    ensures var o := RunOf(body.code, t.code, thisObj, false, kept, args);
      o.Ran? && !o.thrown ==> EscapeOf(body, t, thisObj, kept, args) == Ran(o.kept, args, false)
  {
    hide RunOf;
  }

  lemma IsCaught(body: Body, t: Trace, thisObj: Object?, kept: seq<Object>, args: seq<Object>, kept1: seq<Object>)
    requires body.Caught? && t.Tried?
    ensures var o := RunOf(body.code, t.code, thisObj, false, kept, args);
      o.Ran? && o.thrown && o.kept == kept1 ==>
        EscapeOf(body, t, thisObj, kept, args) == EscapeOf(body.handler, t.handler, thisObj, kept1, args)
  {
    hide RunOf;
  }

  /** Runs the code of a frame and, should it throw, gives up what is then pending. */
  method RunAndUnwind(x: Executor, code: Code) returns (thrown: bool, ghost t: Trace)
    requires x.Valid() && x.Regs() == NoCall && Counted(x.held, Own(x), [], x.thisObj) && Unmarked(x)
    modifies x, x.Repr
    ensures x.Valid() && fresh(x.Repr - old(x.Repr))
    ensures x.thisObj == old(x.thisObj) && old(x.objects) <= x.objects
    ensures x.Regs() == NoCall && x.argTypes.Contents() == old(x.argTypes.Contents()) && x.args == old(x.args)
    ensures var o := RunOf(code, t, x.thisObj, false, old(x.kept), old(x.args));
      o.Ran? && o.thrown == thrown && o.kept == x.kept
    ensures Balanced(old(x.held), old(Own(x)), [], x.held, Own(x), []) && Unmarked(x)
    ensures forall o <- old(x.objects) :: o.ctorFailed == old(o.ctorFailed)
    decreases code, 3
  {
    ghost var pending, base, there := [], x.argTypes.Contents(), x.objects;
    ghost var held, kept := x.held, Own(x);
    ghost var args := x.args;
    var mark := |x.args|;
    hide *;
    NothingPending(x);
    thrown, t, pending := Exec(x, code, NoCall, base, []);
    if thrown {
      Unwind(x, mark, base, pending, there, held, kept, args);
    } else {
      NonePending(x, base);
    }
  }

  method Unwind(x: Executor, mark: nat, ghost base: seq<Word>, ghost pending: seq<Call>, ghost there: set<Object>,
      ghost held: multiset<Object>, ghost own: seq<Object>, ghost args: seq<Object>)
    requires there <= x.objects && forall c <- pending :: c.ctor ==> c.obj !in there
    requires x.Valid() && x.Pending(NoCall, base, pending) && Unmarked(x) && args <= x.args && mark == |args|
    requires Counted(held, own, [], x.thisObj) && Balanced(held, own, [], x.held, Own(x), pending)
    modifies x`fbc, x`obj, x`calledScope, x`held, x`args, x.argTypes, x.objects
    ensures x.Valid() && x.Repr == old(x.Repr) && x.thisObj == old(x.thisObj) && x.objects == old(x.objects) && x.kept == old(x.kept)
    ensures x.Regs() == NoCall && x.argTypes.Contents() == base && x.args == args && Unmarked(x)
    ensures Balanced(held, own, [], x.held, Own(x), [])
    ensures forall o <- there :: o.ctorFailed == old(o.ctorFailed)
  {
    hide *;
    ghost var held1, own1 := x.held, Own(x);
    StillCounted(held, own, [], held1, own1, pending, x.thisObj);
    assert x.args[..mark] == args;
    GiveUpAll(x, mark, base, pending, there);
    BalancedTwice(held, own, [], held1, own1, pending, x.held, Own(x), []);
  }

  lemma NonePending(x: Executor, base: seq<Word>)
    requires x.Valid() && x.Pending(NoCall, base, [])
    ensures x.Regs() == NoCall && x.argTypes.Contents() == base
  {
  }

  /** ZEND_HANDLE_EXCEPTION in a frame whose arguments start at mark. */
  method GiveUpAll(x: Executor, mark: nat, ghost base: seq<Word>, ghost pending: seq<Call>, ghost there: set<Object>)
    requires there <= x.objects && forall c <- pending :: c.ctor ==> c.obj !in there
    requires x.Valid() && x.Pending(NoCall, base, pending) && Unmarked(x)
    requires mark <= |x.args| && Counted(x.held, Own(x), pending, x.thisObj)
    modifies x`fbc, x`obj, x`calledScope, x`held, x`args, x.argTypes, x.objects
    ensures x.Valid() && x.Repr == old(x.Repr) && x.thisObj == old(x.thisObj) && x.objects == old(x.objects) && x.kept == old(x.kept)
    ensures x.Regs() == NoCall && x.argTypes.Contents() == base && x.args == old(x.args)[..mark] && Unmarked(x)
    ensures Balanced(old(x.held), old(Own(x)), pending, x.held, Own(x), [])
    ensures forall o <- there :: o.ctorFailed == old(o.ctorFailed)
  {
    ghost var held, args := x.held, x.args;
    BeforeCall(x, NoCall, base, pending);
    hide *;
    OwnIs(x);
    GivenUp(held, x.kept, args, mark, pending, x.thisObj);
    x.Unwind(mark, NoCall, base, pending);
    OwnIs(x);
    OwnCtorFail(pending, x.held);
    ReturnedUnmarked(x, held);
  }

  lemma GivenUp(held: multiset<Object>, kept: seq<Object>, args: seq<Object>, n: nat, calls: seq<Call>, thisObj: Object?)
    requires n <= |args| && Counted(held, kept + args, calls, thisObj)
    ensures Refs(args[n..]) + HeldAll(calls) <= held
    ensures var held' := held - Refs(args[n..]) - HeldAll(calls);
      held' <= held && Balanced(held, kept + args, calls, held', kept + args[..n], [])
  {
    assert kept + args == (kept + args[..n]) + args[n..];
    assert Refs(kept + args) == Refs(kept + args[..n]) + Refs(args[n..]);
    assert HeldAll([]) == multiset{};
    hide Refs, HeldAll, One;
    SumGivenUp(held, HeldAll(calls), Refs(kept + args[..n]), Refs(args[n..]), One(thisObj));
  }

  lemma SumGivenUp<T>(a: multiset<T>, b: multiset<T>, c: multiset<T>, d: multiset<T>, r: multiset<T>)
    requires (c + d) + b + r <= a
    ensures d + b <= a && a - d - b <= a && (a - d - b) + b + (c + d) == a + multiset{} + c
  {
    forall t: T ensures (d + b)[t] <= a[t] && ((a - d - b) + b + (c + d))[t] == (a + multiset{} + c)[t] {
      assert ((c + d) + b + r)[t] <= a[t];
    }
  }

  lemma OwnCtorFail(calls: seq<Call>, left: multiset<Object>)
    ensures forall o: Object :: CtorFails(calls, o, left) ==> left[o] == 0 && exists c <- calls :: c.ctor && c.obj == o
  {
    forall o: Object | CtorFails(calls, o, left) ensures left[o] == 0 && exists c <- calls :: c.ctor && c.obj == o {
      OwnCtorFails(calls, o, left);
    }
  }

  lemma {:induction false} OwnCtorFails(calls: seq<Call>, o: Object, left: multiset<Object>)
    requires CtorFails(calls, o, left)
    ensures left[o] == 0 && exists c <- calls :: c.ctor && c.obj == o
  {
    var n := |calls| - 1;
    if o in HeldAll(calls[..n]) {
      OwnCtorFails(calls[..n], o, left);
      var c :| c in calls[..n] && c.ctor && c.obj == o;
      assert c in calls;
    } else {
      assert calls[n] in calls;
    }
  }
}
