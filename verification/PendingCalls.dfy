/** The registers and references of calls in preparation, from the handlers that begin a
    call to the exception handler that gives up all that are pending. */
module PendingCalls {
  import opened Wrappers
  import PtrStack

  /** A value holding an object. */
  class Object {
    var refcount: nat
    const isRef: bool
    /** Set when the object's destructor must not run. */
    var ctorFailed: bool

    constructor (refcount: nat)
      ensures this.refcount == refcount && !ctorFailed && !isRef
    {
      this.refcount, isRef, ctorFailed := refcount, false, false;
    }
  }

  /** A called_scope register: a class, and the two low bits that say that the call above
      it is a constructor call and that the new object is used. */
  datatype Scope = Scope(ce: nat, ctorCall: bool, ctorUsed: bool)

  function EncodeCtor(s: Scope, used: bool): Scope {
    s.(ctorCall := true, ctorUsed := used)
  }

  function DecodeCtor(s: Scope): Scope {
    Scope(s.ce, false, false)
  }

  datatype Registers = Registers(fbc: Option<nat>, obj: Object?, scope: Scope)

  /** The registers of a frame that prepares no call. */
  const NoCall: Registers := Registers(None, null, Scope(0, false, false))

  datatype Word = FnWord(fn: Option<nat>) | ObjectWord(obj: Object?) | ScopeWord(scope: Scope)

  /** A pending call: what the registers hold for it, and whether it constructs an object
      that is used. */
  datatype Call = Call(fn: nat, obj: Object?, ce: nat, ctor: bool, used: bool)

  function RegistersOf(c: Call): Registers {
    Registers(Some(c.fn), c.obj, Scope(c.ce, false, false))
  }

  /** The registers of a frame that entered with e and prepares calls, innermost last. */
  function Current(e: Registers, calls: seq<Call>): Registers {
    if calls == [] then e else RegistersOf(calls[|calls| - 1])
  }

  /** The words that call c saves over registers r. */
  function Saved(r: Registers, c: Call): seq<Word> {
    [FnWord(r.fbc), ObjectWord(r.obj),
     ScopeWord(if c.ctor then EncodeCtor(r.scope, c.used) else r.scope)]
  }

  function SavedAll(e: Registers, calls: seq<Call>): seq<Word> {
    if calls == [] then []
    else
      var n := |calls| - 1;
      SavedAll(e, calls[..n]) + Saved(Current(e, calls[..n]), calls[n])
  }

  /** The references a pending call holds: the one to its object, and the one of the
      result that is to be the new object. */
  function Held(c: Call): multiset<Object> {
    if c.obj == null then multiset{}
    else if c.ctor && c.used then multiset{c.obj, c.obj}
    else multiset{c.obj}
  }

  function HeldAll(calls: seq<Call>): multiset<Object> {
    if calls == [] then multiset{} else HeldAll(calls[..|calls| - 1]) + Held(calls[|calls| - 1])
  }

  ghost function Refs(kept: seq<Object>): multiset<Object> {
    multiset(kept)
  }

  /** References before and after those of the objects os went. */
  ghost predicate Released(held: multiset<Object>, os: seq<Object>, held': multiset<Object>) {
    Refs(os) <= held && held' == held - Refs(os)
  }

  class Executor {
    /** EX(fbc), EX(object) and EX(called_scope) of the running frame; EG(This). */
    var fbc: Option<nat>
    var obj: Object?
    var calledScope: Scope
    var thisObj: Object?
    const argTypes: PtrStack.Stack<Word>

    /** The objects that variables and results keep, with a reference each. */
    var kept: seq<Object>
    /** The objects on the argument stack, with a reference each, as one flat sequence. */
    var args: seq<Object>

    ghost var objects: set<Object>
    /** Every reference to an object that someone holds. */
    ghost var held: multiset<Object>
    ghost var Repr: set<object>

    ghost predicate Valid()
      reads this`objects, this`held, this`Repr, Repr
      ensures Valid() ==>
        argTypes in Repr && argTypes.elements in Repr && objects <= Repr && this !in Repr && argTypes.Valid()
    {
      && argTypes in Repr && argTypes.elements in Repr && this !in Repr && objects <= Repr
      && argTypes.Valid()
      && (forall o <- objects :: o.refcount == held[o])
      && (forall o <- held :: o in objects)
    }

    ghost function Regs(): Registers
      reads this`fbc, this`obj, this`calledScope
    {
      Registers(fbc, obj, calledScope)
    }

    constructor ()
      ensures Valid() && Regs() == NoCall && thisObj == null && argTypes.Contents() == []
      ensures objects == {} && held == multiset{} && kept == [] && args == [] && fresh(Repr)
    {
      fbc, obj, calledScope, thisObj := None, null, NoCall.scope, null;
      var stack := new PtrStack.Stack<Word>(0);
      argTypes := stack;
      kept, args, objects, held, Repr := [], [], {}, multiset{}, {stack, stack.elements};
    }

    method AddRef(o: Object)
      requires Valid() && o in objects
      modifies this`held, o`refcount
      ensures Valid() && held == old(held) + multiset{o}
    {
      o.refcount := o.refcount + 1;
      held := held + multiset{o};
    }

    /** Z_DELREF, or zval_ptr_dtor. */
    method DelRef(o: Object)
      requires Valid() && o in held
      modifies this`held, o`refcount
      ensures Valid() && held == old(held)[o := old(held)[o] - 1]
    {
      o.refcount := o.refcount - 1;
      held := held[o := held[o] - 1];
    }

    method Create(refcount: nat) returns (o: Object)
      requires Valid()
      modifies this`held, this`objects, this`Repr
      ensures Valid() && Repr == old(Repr) + {o} && fresh(o) && objects == old(objects) + {o}
      ensures held == old(held)[o := refcount] && !o.ctorFailed && o !in old(held)
    {
      o := new Object(refcount);
      objects, Repr := objects + {o}, Repr + {o};
      held := held[o := refcount];
    }

    /** Switches to another frame's registers. */
    method Load(regs: Registers, thisObj: Object?)
      requires Valid()
      modifies this`fbc, this`obj, this`calledScope, this`thisObj
      ensures Valid() && Regs() == regs && this.thisObj == thisObj
    {
      fbc, obj, calledScope, this.thisObj := regs.fbc, regs.obj, regs.scope, thisObj;
    }

    /** How each call begins: the registers of the call around it are saved. */
    method Save(scope: Scope)
      requires Valid()
      modifies this`Repr, argTypes, argTypes.elements
      ensures Valid() && fresh(Repr - old(Repr))
      ensures argTypes.Contents() == old(argTypes.Contents()) + [FnWord(fbc), ObjectWord(obj), ScopeWord(scope)]
    {
      argTypes.Push3(FnWord(fbc), ObjectWord(obj), ScopeWord(scope));
      Repr := Repr + {argTypes.elements};
    }

    /** ZEND_INIT_FCALL_BY_NAME of a function found. */
    method InitByName(fn: nat) returns (ghost c: Call)
      requires Valid() && calledScope == DecodeCtor(calledScope)
      modifies this`fbc, this`obj, this`Repr, argTypes, argTypes.elements
      ensures Valid() && fresh(Repr - old(Repr))
      ensures argTypes.Contents() == old(argTypes.Contents()) + Saved(old(Regs()), c)
      ensures c == Call(fn, null, old(calledScope.ce), false, false)
      ensures Regs() == RegistersOf(c) && held == old(held) + Held(c)
    {
      c := Call(fn, null, calledScope.ce, false, false);
      Save(calledScope);
      fbc := Some(fn);
      obj := null;
    }

    /** The same for a closure, which says what its class and its $this are; it takes a
        reference to what is bound. */
    method InitClosure(bound: Object?, ce: nat, fn: nat) returns (ghost c: Call)
      requires Valid() && (bound != null ==> bound in objects)
      modifies this`fbc, this`obj, this`calledScope, this`held, this`Repr, argTypes, argTypes.elements, objects`refcount
      ensures Valid() && fresh(Repr - old(Repr))
      ensures argTypes.Contents() == old(argTypes.Contents()) + Saved(old(Regs()), c)
      ensures c == Call(fn, bound, ce, false, false)
      ensures Regs() == RegistersOf(c) && held == old(held) + Held(c)
    {
      c := Call(fn, bound, ce, false, false);
      Save(calledScope);
      calledScope := Scope(ce, false, false);
      fbc := Some(fn);
      obj := bound;
      if obj != null {
        AddRef(obj);
      }
    }

    /** The reference to $this that a call to a method takes: one more to the receiver,
        or the one to a copy when the receiver is a reference. */
    method TakeThis(receiver: Object) returns (o: Object)
      requires Valid() && receiver in objects
      modifies this`held, this`objects, this`Repr, receiver`refcount
      ensures Valid() && fresh(Repr - old(Repr)) && old(objects) <= objects && o in objects
      ensures held == old(held) + multiset{o} && (if receiver.isRef then fresh(o) && !o.ctorFailed else o == receiver)
    {
      if !receiver.isRef {
        AddRef(receiver);
        o := receiver;
      } else {
        o := Create(1);
      }
    }

    /** ZEND_INIT_METHOD_CALL on receiver, once its method is found. */
    method InitMethod(receiver: Object, fn: nat, ce: nat, isStatic: bool) returns (ghost c: Call)
      requires Valid() && receiver in objects
      modifies this`fbc, this`obj, this`calledScope, this`held, this`objects, this`Repr, argTypes, argTypes.elements, receiver`refcount
      ensures Valid() && fresh(Repr - old(Repr))
      ensures argTypes.Contents() == old(argTypes.Contents()) + Saved(old(Regs()), c)
      ensures old(objects) <= objects
      ensures c == Call(fn, c.obj, ce, false, false)
      ensures if isStatic then c.obj == null else if receiver.isRef then fresh(c.obj) && !c.obj.ctorFailed else c.obj == receiver
      ensures Regs() == RegistersOf(c) && held == old(held) + Held(c)
    {
      hide Executor.Valid;
      Save(calledScope);
      obj := null;
      if !isStatic {
        obj := TakeThis(receiver);
      }
      fbc := Some(fn);
      calledScope := Scope(ce, false, false);
      c := Call(fn, obj, ce, false, false);
    }

    /** ZEND_INIT_STATIC_METHOD_CALL: a method that is not static gets the current $this,
        whose class is thisCe. */
    method InitStatic(ce: nat, thisCe: nat, fn: nat, isStatic: bool) returns (ghost c: Call)
      requires Valid() && (thisObj != null ==> thisObj in objects)
      modifies this`fbc, this`obj, this`calledScope, this`held, this`Repr, argTypes, argTypes.elements, objects`refcount
      ensures Valid() && fresh(Repr - old(Repr))
      ensures argTypes.Contents() == old(argTypes.Contents()) + Saved(old(Regs()), c)
      ensures c == (if isStatic || thisObj == null then Call(fn, null, ce, false, false)
                    else Call(fn, thisObj, thisCe, false, false))
      ensures Regs() == RegistersOf(c) && held == old(held) + Held(c)
    {
      Save(calledScope);
      calledScope := Scope(ce, false, false);
      fbc := Some(fn);
      if isStatic {
        obj := null;
      } else {
        obj := thisObj;
        if obj != null {
          AddRef(obj);
          calledScope := Scope(thisCe, false, false);
        }
      }
      c := Call(fn, obj, calledScope.ce, false, false);
    }

    /** ZEND_NEW of a class with a constructor; used tells whether the new object is the
        result, which then holds a reference too. */
    method New(ce: nat, ctor: nat, used: bool) returns (ghost c: Call)
      requires Valid()
      modifies this`fbc, this`obj, this`calledScope, this`held, this`objects, this`Repr, argTypes, argTypes.elements
      ensures Valid() && fresh(Repr - old(Repr))
      ensures argTypes.Contents() == old(argTypes.Contents()) + Saved(old(Regs()), c)
      ensures fresh(c.obj) && !c.obj.ctorFailed && objects == old(objects) + {c.obj}
      ensures c == Call(ctor, c.obj, ce, true, used)
      ensures Regs() == RegistersOf(c) && held == old(held) + Held(c)
    {
      var newObject := Create(if used then 2 else 1);
      Save(EncodeCtor(calledScope, used));
      obj := newObject;
      fbc := Some(ctor);
      calledScope := Scope(ce, false, false);
      c := Call(ctor, newObject, ce, true, used);
    }

    /** What becomes of o, held for a call that ends with an exception: its reference
        goes, and that of the result too when it is under construction. */
    method Abandon(o: Object, ctor: bool, used: bool)
      requires Valid() && held[o] >= if ctor && used then 2 else 1
      modifies this`held, o`refcount, o`ctorFailed
      ensures Valid() && held == old(held)[o := old(held)[o] - if ctor && used then 2 else 1]
      ensures o.ctorFailed <==> old(o.ctorFailed) || (ctor && held[o] == 0)
    {
      if ctor {
        if used {
          DelRef(o);
        }
        if o.refcount == 1 {
          o.ctorFailed := true;
        }
      }
      DelRef(o);
    }

    method PopScope(ghost below: seq<Word>, ghost r: Registers, ghost c: Call)
      requires Valid() && argTypes.Contents() == below + Saved(r, c)
      modifies this`calledScope, argTypes
      ensures Valid() && Repr == old(Repr)
      ensures argTypes.Contents() == below + [FnWord(r.fbc), ObjectWord(r.obj)]
      ensures calledScope == if c.ctor then EncodeCtor(r.scope, c.used) else r.scope
    {
      assert argTypes.Contents() == below + [FnWord(r.fbc), ObjectWord(r.obj)] + [Saved(r, c)[2]];
      var w := argTypes.Pop();
      SplitLast(argTypes.Contents(), w, below + [FnWord(r.fbc), ObjectWord(r.obj)], Saved(r, c)[2]);
      calledScope := w.scope;
    }

    /** zend_arg_types_stack_2_pop */
    method PopCall(ghost below: seq<Word>, ghost r: Registers)
      requires Valid() && argTypes.Contents() == below + [FnWord(r.fbc), ObjectWord(r.obj)]
      modifies this`fbc, this`obj, argTypes
      ensures Valid() && Repr == old(Repr)
      ensures argTypes.Contents() == below && fbc == r.fbc && obj == r.obj
    {
      var o, f := argTypes.Pop2();
      SplitLast2(argTypes.Contents(), f, o, below, FnWord(r.fbc), ObjectWord(r.obj));
      obj, fbc := o.obj, f.fn;
    }

    /** Gives up the object in the register, which call c holds. */
    method AbandonTop(ghost c: Call)
      requires Valid() && obj == c.obj && Held(c) <= held && (c.obj != null ==> c.obj in objects)
      requires calledScope.ctorCall == c.ctor && (c.ctor ==> calledScope.ctorUsed == c.used)
      modifies this`held, objects
      ensures Valid() && held == old(held) - Held(c)
      ensures forall o <- objects :: o.ctorFailed <==> old(o.ctorFailed) || (c.ctor && o == c.obj && held[o] == 0)
    {
      HeldCount(held, c);
      hide Held;
      if obj != null {
        Abandon(obj, calledScope.ctorCall, calledScope.ctorUsed);
      }
    }

    /** One step of the loop of ZEND_HANDLE_EXCEPTION: gives up the call c on top, which
        had saved r over the words below. */
    method GiveUp(ghost below: seq<Word>, ghost r: Registers, ghost c: Call)
      requires Valid() && Regs() == RegistersOf(c) && r.scope == DecodeCtor(r.scope)
      requires argTypes.Contents() == below + Saved(r, c) && Held(c) <= held && (c.obj != null ==> c.obj in objects)
      modifies this`fbc, this`obj, this`calledScope, this`held, argTypes, objects
      ensures Valid() && Repr == old(Repr)
      ensures Regs() == r && argTypes.Contents() == below && held == old(held) - Held(c)
      ensures forall o <- objects :: o.ctorFailed <==>
        old(o.ctorFailed) || (c.ctor && o == c.obj && held[o] == 0)
    {
      hide Saved, Held;
      PopScope(below, r, c);
      AbandonTop(c);
      calledScope := DecodeCtor(calledScope);
      PopCall(below, r);
    }

    /** The pending calls of a frame that entered with e over the words base. */
    ghost predicate Pending(e: Registers, base: seq<Word>, calls: seq<Call>)
      requires Valid()
      reads this`fbc, this`obj, this`calledScope, this`held, this`objects, this`Repr, Repr
    {
      && Regs() == Current(e, calls) && argTypes.Contents() == base + SavedAll(e, calls)
      && HeldAll(calls) <= held && e.scope == DecodeCtor(e.scope) && e.fbc.None?
    }

    method GiveUpTop(ghost e: Registers, ghost base: seq<Word>, ghost calls: seq<Call>, ghost left: multiset<Object>)
      requires Valid() && Pending(e, base, calls) && fbc != None && held == left + HeldAll(calls)
      modifies this`fbc, this`obj, this`calledScope, this`held, argTypes, objects
      ensures Valid() && Repr == old(Repr)
      ensures calls != [] && Pending(e, base, calls[..|calls| - 1])
      ensures held == left + HeldAll(calls[..|calls| - 1])
      ensures forall o <- objects ::
        (o.ctorFailed || CtorFails(calls[..|calls| - 1], o, left) <==> old(o.ctorFailed) || CtorFails(calls, o, left))
    {
      ghost var n := |calls| - 1;
      ghost var c, r := calls[n], Current(e, calls[..n]);
      assert base + SavedAll(e, calls) == base + SavedAll(e, calls[..n]) + Saved(r, c);
      GiveUp(base + SavedAll(e, calls[..n]), r, c);
      forall o <- objects ensures o.ctorFailed || CtorFails(calls[..n], o, left)
        <==> old(o.ctorFailed) || CtorFails(calls, o, left)
      {
        CtorFailsHeld(calls[..n], o, left);
      }
    }

    lemma HeldIsObject(o: Object)
      requires Valid() && o in held
      ensures o in objects
    {
    }

    lemma PendingHas(e: Registers, base: seq<Word>, calls: seq<Call>)
      requires Valid() && Pending(e, base, calls)
      ensures Regs() == Current(e, calls) && argTypes.Contents() == base + SavedAll(e, calls)
      ensures e.scope == DecodeCtor(e.scope) && e.fbc.None?
    {
    }

    lemma PendingIs(e: Registers, base: seq<Word>, calls: seq<Call>)
      requires Valid() && e.scope == DecodeCtor(e.scope) && e.fbc.None?
      requires Regs() == Current(e, calls) && argTypes.Contents() == base + SavedAll(e, calls)
      requires HeldAll(calls) <= held
      ensures Pending(e, base, calls)
    {
    }

    /** Pops the arguments above mark and releases them. */
    method PopArgs(mark: nat)
      requires Valid() && mark <= |args| && Refs(args[mark..]) <= held
      modifies this`args, this`held, objects`refcount
      ensures Valid() && args == old(args)[..mark] && Released(old(held), old(args)[mark..], held)
    {
      ghost var n := |args|;
      PoppedNone(args, held);
      hide Valid, Refs;
      while |args| != mark
        invariant Valid() && mark <= |args| <= n && args == old(args)[..|args|]
        invariant held == old(held) - Refs(old(args)[|args|..])
        decreases |args|
      {
        PoppedOne(old(args), |args|, mark, old(held));
        var o := args[|args| - 1];
        HeldIsObject(o);
        args := args[..|args| - 1];
        DelRef(o);
      }
    }

    /** The loops of ZEND_HANDLE_EXCEPTION over the arguments above the frame and over the
        pending calls. The arguments go first: whether anything holds an object whose
        constructor failed is judged without them. */
    method Unwind(mark: nat, ghost e: Registers, ghost base: seq<Word>, ghost calls: seq<Call>)
      requires Valid() && Pending(e, base, calls) && mark <= |args| && Refs(args[mark..]) + HeldAll(calls) <= held
      modifies this`fbc, this`obj, this`calledScope, this`held, this`args, argTypes, objects
      ensures Valid() && Repr == old(Repr) && thisObj == old(thisObj) && objects == old(objects) && kept == old(kept)
      ensures Regs() == e && argTypes.Contents() == base && args == old(args)[..mark]
      ensures held == old(held) - Refs(old(args)[mark..]) - HeldAll(calls)
      ensures forall o <- objects :: o.ctorFailed <==> old(o.ctorFailed) || CtorFails(calls, o, held)
    {
      hide *;
      ghost var held0, popped := held, args[mark..];
      PendingHas(e, base, calls);
      WithoutArgs(held, Refs(popped), HeldAll(calls));
      PopArgs(mark);
      ReleasedIs(held0, popped, held);
      PendingIs(e, base, calls);
      HandleException(e, base, calls);
    }

    /** The loop of ZEND_HANDLE_EXCEPTION over the pending calls. */
    method HandleException(ghost e: Registers, ghost base: seq<Word>, ghost calls: seq<Call>)
      requires Valid() && Pending(e, base, calls)
      modifies this`fbc, this`obj, this`calledScope, this`held, argTypes, objects
      ensures Valid() && Repr == old(Repr)
      ensures Regs() == e && argTypes.Contents() == base && held == old(held) - HeldAll(calls)
      ensures forall o <- objects :: o.ctorFailed <==> old(o.ctorFailed) || CtorFails(calls, o, held)
    {
      ghost var rest, left := calls, held - HeldAll(calls);
      while fbc != None
        invariant Valid() && Repr == old(Repr) && Pending(e, base, rest)
        invariant held == left + HeldAll(rest)
        invariant forall o <- objects ::
          (o.ctorFailed || CtorFails(rest, o, left) <==> old(o.ctorFailed) || CtorFails(calls, o, left))
        decreases |rest|
      {
        GiveUpTop(e, base, rest, left);
        rest := rest[..|rest| - 1];
      }
    }
  }

  /** The calls give up their references, innermost first, leaving left. Whether that
      takes the last reference to o from a call that constructs it. */
  ghost predicate CtorFails(calls: seq<Call>, o: Object, left: multiset<Object>) {
    calls != [] &&
    var n := |calls| - 1;
    if o in HeldAll(calls[..n]) then CtorFails(calls[..n], o, left)
    else calls[n].ctor && calls[n].obj == o && left[o] == 0
  }

  lemma CtorFailsHeld(calls: seq<Call>, o: Object, left: multiset<Object>)
    ensures CtorFails(calls, o, left) ==> o in HeldAll(calls)
    decreases |calls|
  {
    if calls != [] {
      CtorFailsHeld(calls[..|calls| - 1], o, left);
    }
  }

  lemma PoppedNone(args: seq<Object>, held: multiset<Object>)
    ensures args[..|args|] == args && Refs(args[|args|..]) == multiset{} && held == held - Refs(args[|args|..])
  {
  }

  lemma PoppedOne(args: seq<Object>, n: nat, mark: nat, held: multiset<Object>)
    requires mark < n <= |args| && Refs(args[mark..]) <= held
    ensures args[..n][..n - 1] == args[..n - 1] && args[..n][n - 1] == args[n - 1]
    ensures var left := held - Refs(args[n..]); var o := args[n - 1];
      o in left && left[o := left[o] - 1] == held - Refs(args[n - 1..])
  {
    var o := args[n - 1];
    assert args[n - 1..] == [o] + args[n..];
    assert args[mark..] == args[mark..n - 1] + args[n - 1..];
    assert Refs(args[n - 1..]) == multiset{o} + Refs(args[n..]);
    assert Refs(args[mark..]) == Refs(args[mark..n - 1]) + Refs(args[n - 1..]);
    assert Refs(args[n - 1..]) <= held;
  }

  lemma ReleasedIs(held: multiset<Object>, os: seq<Object>, held': multiset<Object>)
    requires Released(held, os, held')
    ensures held' == held - Refs(os)
  {
  }

  lemma WithoutArgs<T>(held: multiset<T>, args: multiset<T>, calls: multiset<T>)
    requires args + calls <= held
    ensures args <= held && calls <= held - args
  {
  }

  lemma HeldCount(held: multiset<Object>, c: Call)
    requires Held(c) <= held
    ensures c.obj == null ==> held - Held(c) == held
    ensures c.obj != null ==> var n := if c.ctor && c.used then 2 else 1;
      held[c.obj] >= n && held - Held(c) == held[c.obj := held[c.obj] - n]
  {
    if c.obj != null {
      assert held[c.obj] >= Held(c)[c.obj];
    }
  }

  lemma SplitLast<T>(s: seq<T>, x: T, t: seq<T>, y: T)
    requires s + [x] == t + [y]
    ensures s == t && x == y
  {
    assert (s + [x])[|s|] == x && (t + [y])[|t|] == y;
    assert (s + [x])[..|s|] == s && (t + [y])[..|t|] == t;
  }

  lemma SplitLast2<T>(s: seq<T>, x1: T, x2: T, t: seq<T>, y1: T, y2: T)
    requires s + [x1, x2] == t + [y1, y2]
    ensures s == t && x1 == y1 && x2 == y2
  {
    assert s + [x1, x2] == s + [x1] + [x2] && t + [y1, y2] == t + [y1] + [y2];
    SplitLast(s + [x1], x2, t + [y1], y2);
    SplitLast(s, x1, t, y1);
  }
}
