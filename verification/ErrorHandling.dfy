/** The stack of error handlers that objects and the global default share. */
module ErrorHandling {

  /** A mode is null or an integer, and compared loosely: 0 is null too. */
  datatype Mode = Null | Mode(n: int)

  /** Options of a mode; whether they can be called as a handler. */
  datatype Options = NoOptions | Options(id: nat, callable: bool)

  datatype Setting = Setting(mode: Mode, options: Options)

  const RETURN := 1
  const PRINT := 2
  const TRIGGER := 4
  const DIE := 8
  const CALLBACK := 16
  const EXCEPTION := 32

  datatype Warning = NoWarning | InvalidCallback | InvalidMode

  /** The modes whose options are taken as they are. */
  predicate IsSimple(mode: Mode) {
    mode == Null || mode.n in {EXCEPTION, RETURN, PRINT, TRIGGER, DIE, 0}
  }

  predicate IsCallable(options: Options) {
    options.Options? && options.callable
  }

  /** What is left of the setting cur when s is asked for. */
  function Changed(cur: Setting, s: Setting): Setting {
    if Restorable(s) then s
    else if s.mode.n == CALLBACK then Setting(s.mode, cur.options)
    else cur
  }

  /** Each mode by its number. */
  lemma ChangedIs(cur: Setting, s: Setting)
    ensures s.mode in {Null, Mode(0), Mode(1), Mode(2), Mode(4), Mode(8), Mode(32)} ==> Restorable(s) && Changed(cur, s) == s
    ensures s.mode == Mode(16) ==>
      var callable := s.options.Options? && s.options.callable;
      (Restorable(s) <==> callable) && Changed(cur, s) == Setting(Mode(16), if callable then s.options else cur.options)
    ensures s.mode !in {Null, Mode(0), Mode(1), Mode(2), Mode(4), Mode(8), Mode(16), Mode(32)} ==>
      !Restorable(s) && Changed(cur, s) == cur
  {
  }

  /** Asking for s gives s, whatever was set before. */
  predicate Restorable(s: Setting) {
    IsSimple(s.mode) || (s.mode.n == CALLBACK && IsCallable(s.options))
  }

  /** A pop restores what its push found, whatever was pushed, exactly if what it found is
      restorable. */
  lemma RestoredIff(s: Setting)
    ensures Restorable(s) <==> forall pushed :: Changed(Changed(s, pushed), s) == s
  {
    if !Restorable(s) {
      var other := if s.options == NoOptions then Options(0, false) else NoOptions;
      assert Changed(Changed(s, Setting(Mode(RETURN), other)), s) != s;
    }
  }

  /** What holds a mode and options: an object, or the global defaults. */
  class Target {
    var mode: Mode
    var options: Options

    constructor ()
      ensures mode == Null && options == NoOptions
    {
      mode, options := Null, NoOptions;
    }

    function Get(): Setting
      reads this
    {
      Setting(mode, options)
    }
  }

  class Pear {
    const defaults: Target
    var stack: seq<Setting>

    constructor ()
      ensures stack == [] && fresh(defaults) && defaults.Get() == Setting(Mode(RETURN), Options(0, false))
    {
      defaults := new Target();
      stack := [];
      new;
      defaults.mode, defaults.options := Mode(RETURN), Options(0, false);
    }

    /** What a method works on: the object it is called on, or if none the defaults. */
    function Of(obj: Target?): Target {
      if obj == null then defaults else obj
    }

    method SetErrorHandling(obj: Target?, mode: Mode, options: Options) returns (w: Warning)
      modifies Of(obj)
      ensures Of(obj).Get() == Changed(old(Of(obj).Get()), Setting(mode, options))
      ensures w == NoWarning <==> Restorable(Setting(mode, options))
      ensures w == InvalidCallback <==> mode == Mode(16) && !(options.Options? && options.callable)
      ensures mode in {Null, Mode(0), Mode(1), Mode(2), Mode(4), Mode(8), Mode(32)} ==>
        (Of(obj).Get() == Setting(mode, options) && w == NoWarning)
      ensures mode == Mode(16) ==>
        Of(obj).Get() == Setting(mode, if options.Options? && options.callable then options else old(Of(obj).Get()).options)
      ensures mode !in {Null, Mode(0), Mode(1), Mode(2), Mode(4), Mode(8), Mode(16), Mode(32)} ==>
        (Of(obj).Get() == old(Of(obj).Get()) && w == InvalidMode)
    {
      var target := Of(obj);
      w := NoWarning;
      if IsSimple(mode) {
        target.mode := mode;
        target.options := options;
      } else if mode.n == CALLBACK {
        target.mode := mode;
        if IsCallable(options) {
          target.options := options;
        } else {
          w := InvalidCallback;
        }
      } else {
        w := InvalidMode;
      }
    }

    method PushErrorHandling(obj: Target?, mode: Mode, options: Options)
      modifies this, Of(obj)
      ensures stack == old(stack) + [old(Of(obj).Get()), Setting(mode, options)]
      ensures Of(obj).Get() == Changed(old(Of(obj).Get()), Setting(mode, options))
    {
      var target := Of(obj);
      stack := stack + [Setting(target.mode, target.options)];
      var w := SetErrorHandling(obj, mode, options);
      stack := stack + [Setting(mode, options)];
    }

    method PopErrorHandling(obj: Target?)
      modifies this, Of(obj)
      ensures stack == Below(old(stack)) && Of(obj).Get() == Changed(old(Of(obj).Get()), Saved(old(stack)))
      ensures var n := |old(stack)|; n >= 2 ==>
        stack == old(stack)[..n - 2] && Of(obj).Get() == Changed(old(Of(obj).Get()), old(stack)[n - 2])
    {
      stack := ArrayPop(stack);
      var s := Last(stack);
      stack := ArrayPop(stack);
      var w := SetErrorHandling(obj, s.mode, s.options);
    }

    /** The static pair, which does not call the others. */
    method StaticPushErrorHandling(mode: Mode, options: Options)
      modifies this, defaults
      ensures stack == old(stack) + [old(defaults.Get()), Setting(mode, options)]
      ensures defaults.Get() == Changed(old(defaults.Get()), Setting(mode, options))
    {
      stack := stack + [Setting(defaults.mode, defaults.options)];
      StaticSet(mode, options);
      stack := stack + [Setting(mode, options)];
    }

    method StaticPopErrorHandling()
      modifies this, defaults
      ensures stack == Below(old(stack)) && defaults.Get() == Changed(old(defaults.Get()), Saved(old(stack)))
      ensures var n := |old(stack)|; n >= 2 ==>
        stack == old(stack)[..n - 2] && defaults.Get() == Changed(old(defaults.Get()), old(stack)[n - 2])
    {
      stack := ArrayPop(stack);
      var s := Last(stack);
      stack := ArrayPop(stack);
      StaticSet(s.mode, s.options);
    }

    /** The switch that each method of the static pair has. */
    method StaticSet(mode: Mode, options: Options)
      modifies defaults
      ensures defaults.Get() == Changed(old(defaults.Get()), Setting(mode, options))
    {
      if IsSimple(mode) {
        defaults.mode := mode;
        defaults.options := options;
      } else if mode.n == CALLBACK {
        defaults.mode := mode;
        if IsCallable(options) {
          defaults.options := options;
        }
      }
    }

    /** The settings of objs are m. */
    ghost predicate Has(objs: set<Target>, m: map<Target, Setting>)
      reads objs
      ensures Has(objs, m) ==> m.Keys == objs
    {
      m.Keys == objs && forall o <- objs :: o.Get() == m[o]
    }

    /** Runs a trace on objects with the settings m. All that is pushed is popped on the same
        object, and a handler is set only inside a scope of its object. Whatever is asked for,
        valid or not, the stack is as before, and so are all objects not in an outer scope that
        had a restorable setting. All end with the settings that the trace comes to. */
    method Run(t: Trace, ghost objs: set<Target>, ghost open: set<Target>, ghost m: map<Target, Setting>)
      requires defaults in objs && t.Uses(this, objs) && t.SetsOnly(this, open) && Has(objs, m)
      modifies this, objs
      ensures stack == old(stack)
      ensures forall o <- objs :: o !in open && Restorable(old(o.Get())) ==> o.Get() == old(o.Get())
      ensures Has(objs, t.Settings(this, m))
    {
      t.Restores(this, m, open);
      Execute(t, objs, m);
    }

    method Execute(t: Trace, ghost objs: set<Target>, ghost m: map<Target, Setting>)
      requires defaults in objs && t.Uses(this, objs) && Has(objs, m)
      modifies this, objs
      ensures stack == old(stack) && Has(objs, t.Settings(this, m))
      decreases t
    {
      hide Restorable, Changed, IsSimple, IsCallable, Has;
      match t
      case End =>
      case Set(obj, mode, options, rest) =>
        Ask(obj, mode, options, objs, m);
        Execute(rest, objs, After(m, Of(obj), Setting(mode, options)));
      case Scope(obj, mode, options, pushStatic, popStatic, body, rest) =>
        ghost var o := Of(obj);
        ghost var m1 := After(m, o, Setting(mode, options));
        Open(obj, mode, options, pushStatic, objs, m);
        Execute(body, objs, m1);
        Close(obj, popStatic, objs, body.Settings(this, m1));
        Execute(rest, objs, After(body.Settings(this, m1), o, m[o]));
    }

    method Ask(obj: Target?, mode: Mode, options: Options, ghost objs: set<Target>, ghost m: map<Target, Setting>)
      requires Of(obj) in objs && Has(objs, m)
      modifies Of(obj)
      ensures Has(objs, After(m, Of(obj), Setting(mode, options)))
    {
      hide Changed, Restorable;
      var w := SetErrorHandling(obj, mode, options);
    }

    /** A push by either pair. */
    method Open(obj: Target?, mode: Mode, options: Options, isStatic: bool, ghost objs: set<Target>, ghost m: map<Target, Setting>)
      requires Of(obj) in objs && Has(objs, m)
      modifies this, Of(obj)
      ensures stack == old(stack) + [m[Of(obj)], Setting(mode, options)]
      ensures Has(objs, After(m, Of(obj), Setting(mode, options)))
    {
      hide Changed, Restorable;
      if isStatic && obj == null {
        StaticPushErrorHandling(mode, options);
      } else {
        PushErrorHandling(obj, mode, options);
      }
    }

    /** A pop by either pair. */
    method Close(obj: Target?, isStatic: bool, ghost objs: set<Target>, ghost m: map<Target, Setting>)
      requires Of(obj) in objs && Has(objs, m) && |stack| >= 2
      modifies this, Of(obj)
      ensures stack == old(stack)[..|old(stack)| - 2]
      ensures Has(objs, After(m, Of(obj), old(stack)[|old(stack)| - 2]))
    {
      hide Changed, Restorable;
      if isStatic && obj == null {
        StaticPopErrorHandling();
      } else {
        PopErrorHandling(obj);
      }
    }
  }

  /** The settings m after s was asked for on o. */
  function After(m: map<Target, Setting>, o: Target, s: Setting): (n: map<Target, Setting>)
    requires o in m
    ensures n.Keys == m.Keys
  {
    m[o := Changed(m[o], s)]
  }

  /** An invalid callback leaves the defaults on a callback that cannot be called. A push and
      its pop then lose the options. */
  method Unrestored() returns (before: Setting, after: Setting)
    ensures before == Setting(Mode(CALLBACK), Options(0, false)) && after == Setting(Mode(CALLBACK), NoOptions)
  {
    var p := new Pear();
    var w := p.SetErrorHandling(null, Mode(CALLBACK), Options(1, false));
    before := p.defaults.Get();
    p.PushErrorHandling(null, Mode(RETURN), NoOptions);
    p.PopErrorHandling(null);
    after := p.defaults.Get();
  }

  function ArrayPop(stack: seq<Setting>): seq<Setting> {
    if stack == [] then [] else stack[..|stack| - 1]
  }

  function Last(stack: seq<Setting>): Setting {
    if stack == [] then Setting(Null, NoOptions) else stack[|stack| - 1]
  }

  /** The setting that the last push saved, and the stack before it. A stack that no push
      made stands for null. */
  function Saved(stack: seq<Setting>): Setting {
    if |stack| < 2 then Setting(Null, NoOptions) else stack[|stack| - 2]
  }

  function Below(stack: seq<Setting>): seq<Setting> {
    if |stack| < 2 then [] else stack[..|stack| - 2]
  }

  /** Calls that are well nested. */
  datatype Trace =
    | End
    | Set(obj: Target?, mode: Mode, options: Options, rest: Trace)
    | Scope(obj: Target?, mode: Mode, options: Options, pushStatic: bool, popStatic: bool, body: Trace, rest: Trace)
  {
    ghost predicate Uses(p: Pear, objs: set<Target>) {
      match this
      case End => true
      case Set(obj, _, _, rest) => p.Of(obj) in objs && rest.Uses(p, objs)
      case Scope(obj, _, _, _, _, body, rest) => p.Of(obj) in objs && body.Uses(p, objs) && rest.Uses(p, objs)
    }

    /** What the settings m come to: a scope asks for the setting that its object had. */
    ghost function Settings(p: Pear, m: map<Target, Setting>): (n: map<Target, Setting>)
      requires Uses(p, m.Keys)
      ensures n.Keys == m.Keys
    {
      match this
      case End => m
      case Set(obj, mode, options, rest) => rest.Settings(p, After(m, p.Of(obj), Setting(mode, options)))
      case Scope(obj, mode, options, _, _, body, rest) =>
        var o := p.Of(obj);
        rest.Settings(p, After(body.Settings(p, After(m, o, Setting(mode, options))), o, m[o]))
    }

    /** A restorable setting is as before, of all that is not in an outer scope. */
    lemma {:induction false} Restores(p: Pear, m: map<Target, Setting>, open: set<Target>)
      requires Uses(p, m.Keys) && SetsOnly(p, open)
      ensures forall o <- m :: o !in open && Restorable(m[o]) ==> Settings(p, m)[o] == m[o]
    {
      match this
      case End =>
      case Set(obj, mode, options, rest) => rest.Restores(p, After(m, p.Of(obj), Setting(mode, options)), open);
      case Scope(obj, mode, options, _, _, body, rest) =>
        var o := p.Of(obj);
        var m1 := After(m, o, Setting(mode, options));
        body.Restores(p, m1, open + {o});
        rest.Restores(p, After(body.Settings(p, m1), o, m[o]), open);
    }

    ghost predicate SetsOnly(p: Pear, open: set<Target>) {
      match this
      case End => true
      case Set(obj, _, _, rest) => p.Of(obj) in open && rest.SetsOnly(p, open)
      case Scope(obj, _, _, _, _, body, rest) => body.SetsOnly(p, open + {p.Of(obj)}) && rest.SetsOnly(p, open)
    }
  }
}
