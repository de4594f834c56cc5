/** Runs of the handlers that enter and leave frames, look variables up and unset them: in
    every frame chain they reach, all cached slots are right. */
module CompiledVarRuns {
  import opened Wrappers
  import opened CompiledVars
  import opened Words
  import opened NumericKey
  import opened Symtable

  datatype Step =
    | Call(vars: seq<string>)
    | CallBuiltin
    | Include(vars: seq<string>)
    | Leave
    | Fetch(v: nat, write: bool, slot: nat)
    | Catch(v: nat, slot: nat)
    | Unset(v: nat)
    | UnsetNamed(name: string)
    | UnsetSuperglobal(name: string)
    | UnsetGlobal(name: string, w: Width)
    | UnsetGlobalNumber(h: nat)
    | UnsetGlobalNull
  {
    /** What the compiler guarantees: it lists a variable once, and never compiles a
        superglobal into one. */
    ghost predicate Compiled(superglobals: set<string>) {
      match this
      case Call(vars) => Unique(vars) && Apart(vars, superglobals)
      case Include(vars) => Unique(vars) && Apart(vars, superglobals)
      case UnsetSuperglobal(name) => name in superglobals
      case _ => true
    }

    static ghost predicate Apart(vars: seq<string>, superglobals: set<string>) {
      forall name <- vars :: name !in superglobals
    }
  }

  /** No frame has a superglobal as a compiled variable. */
  ghost predicate NoSuperglobals(fs: seq<Frame>, superglobals: set<string>) {
    forall f <- fs :: Step.Apart(f.vars, superglobals)
  }

  /** The variables that a frame without a symbol table has in its cache. */
  ghost function Locals(cvs: Cache, vars: seq<string>): map<string, nat>
    requires |cvs| == |vars|
  {
    if vars == [] then map[]
    else
      var n := |vars| - 1;
      var m := Locals(cvs[..n], vars[..n]);
      if cvs[n].Some? then m[vars[n] := cvs[n].value] else m
  }

  lemma {:induction false} LocalsAre(cvs: Cache, vars: seq<string>)
    requires |cvs| == |vars| && Unique(vars)
    ensures Holds(Locals(cvs, vars), cvs, vars)
  {
    if vars != [] {
      LocalsAre(cvs[..|vars| - 1], vars[..|vars| - 1]);
    }
  }

  lemma HoldsLocals(slots: map<string, nat>, cvs: Cache, vars: seq<string>)
    requires Holds(slots, cvs, vars) && Unique(vars)
    ensures slots == Locals(cvs, vars)
  {
    LocalsAre(cvs, vars);
    hide Locals;
  }

  lemma LocalsWith(cvs: Cache, vars: seq<string>, v: nat, slot: nat)
    requires |cvs| == |vars| && Unique(vars) && v < |vars|
    ensures Locals(cvs[v := Some(slot)], vars) == Locals(cvs, vars)[vars[v] := slot]
    ensures Locals(cvs[v := None], vars) == Locals(cvs, vars) - {vars[v]}
    ensures vars[v] in Locals(cvs, vars) <==> cvs[v].Some?
  {
    LocalsAre(cvs, vars);
    LocalsAre(cvs[v := Some(slot)], vars);
    LocalsAre(cvs[v := None], vars);
    hide Locals;
  }

  /** The variables of the current frame: those of its symbol table, or without one its own. */
  ghost function Vars(e: Executor): map<string, nat>
    requires e.current != null && |e.current.cvs| == |e.current.vars|
    reads e, e.current, e.activeTable
  {
    if e.activeTable != null then e.activeTable.slots else Locals(e.current.cvs, e.current.vars)
  }

  lemma VarsAre(e: Executor)
    requires e.current != null && |e.current.cvs| == |e.current.vars|
    ensures Vars(e) == if e.activeTable != null then e.activeTable.slots else Locals(e.current.cvs, e.current.vars)
  {
  }

  ghost predicate Within(e: Executor, repr: set<object>)
    reads e, e.frames
  {
    e.globals in repr && forall f <- e.frames :: f in repr && (f.table != null ==> f.table in repr)
  }

  /** What a step works with: whether the current frame runs compiled code, its variables as
      the compiler lists them, whether it has a symbol table, the variables there are, those
      of the table of globals, and the frames. */
  datatype State = State(coded: bool, listed: seq<string>, onTable: bool, vars: map<string, nat>,
      globals: map<string, nat>, frames: seq<Frame>)

  ghost function Now(e: Executor): State
    requires e.current != null && |e.current.cvs| == |e.current.vars|
    reads e, e.current, e.activeTable, e.globals
  {
    State(e.current.hasOpArray, e.current.vars, e.activeTable != null, Vars(e), e.globals.slots, e.frames)
  }

  /** What a step leads to from b where there are no caches. */
  ghost predicate Leads(step: Step, b: State, a: State) {
    match step
    case Call(vars) => Pushes(b, a) && a.coded && a.listed == vars && a.vars == map[]
    case CallBuiltin => Pushes(b, a) && !a.coded
    case Include(vars) => if b.coded then Pushes(b, a) && a.coded && a.listed == vars && a.vars == b.vars else a == b
    case Leave => a.frames == if |b.frames| > 1 then b.frames[..|b.frames| - 1] else b.frames
    case UnsetNamed(name) => a.frames == b.frames && a.vars == if b.coded then b.vars - {name} else b.vars
    case UnsetSuperglobal(name) => a.frames == b.frames && a.globals == if b.coded then b.globals - {name} else b.globals
    case UnsetGlobal(name, w) =>
      && a.frames == b.frames
      && a.globals == if b.coded && Normal(name + [NUL], w).Name? then b.globals - {name} else b.globals
    case UnsetGlobalNumber(_) => a == b
    case UnsetGlobalNull => a.frames == b.frames && (a.globals == b.globals || (b.coded && a.globals == b.globals - {""}))
    case _ => a.frames == b.frames && a.vars == if b.coded then Effect(step, b.listed, b.onTable, b.vars) else b.vars
  }

  ghost predicate Pushes(b: State, a: State) {
    |a.frames| == |b.frames| + 1 && a.frames[..|b.frames|] == b.frames
  }

  /** A call starts with no variables. */
  method DoCall(e: Executor, vars: seq<string>)
    requires e.Valid() && Unique(vars)
    modifies e`current, e`activeTable, e`frames, e.current`table
    ensures e.Valid()
    ensures forall f <- e.frames :: f == e.current || f in old(e.frames)
    ensures e.current.vars == vars && (e.current == old(e.current) || fresh(e.current))
    ensures forall f <- e.frames :: f.table == e.activeTable || (f in old(e.frames) && f.table == old(f.table))
    ensures e.activeTable == old(e.activeTable) || e.activeTable == null || fresh(e.activeTable)
    ensures Leads(Call(vars), old(Now(e)), Now(e))
  {
    hide *;
    e.ValidHas();
    ghost var b := Now(e);
    NowIs(e);
    e.Call(vars);
    NowIs(e);
    CallLeads(vars, b, Now(e), e.current.cvs);
    e.ValidHas();
  }

  method DoBuiltin(e: Executor)
    requires e.Valid()
    modifies e`current, e`activeTable, e`frames, e.current`table
    ensures e.Valid()
    ensures forall f <- e.frames :: f == e.current || f in old(e.frames)
    ensures e.current.vars == [] && (e.current == old(e.current) || fresh(e.current))
    ensures forall f <- e.frames :: f.table == e.activeTable || (f in old(e.frames) && f.table == old(f.table))
    ensures e.activeTable == old(e.activeTable) || e.activeTable == null || fresh(e.activeTable)
    ensures Leads(CallBuiltin, old(Now(e)), Now(e))
  {
    hide *;
    e.ValidHas();
    ghost var b := Now(e);
    NowIs(e);
    e.Builtin();
    NowIs(e);
    BuiltinLeads(b, Now(e));
    e.ValidHas();
  }

  /** An included file starts with the variables of its caller. */
  method DoInclude(e: Executor, vars: seq<string>)
    requires e.Valid() && Unique(vars) && e.current.hasOpArray
    modifies e`current, e`activeTable, e`frames, e.current`table
    ensures e.Valid()
    ensures forall f <- e.frames :: f == e.current || f in old(e.frames)
    ensures e.current.vars == vars && (e.current == old(e.current) || fresh(e.current))
    ensures forall f <- e.frames :: f.table == e.activeTable || (f in old(e.frames) && f.table == old(f.table))
    ensures e.activeTable == old(e.activeTable) || e.activeTable == null || fresh(e.activeTable)
    ensures Leads(Include(vars), old(Now(e)), Now(e))
  {
    hide *;
    e.ValidHas();
    UniqueIs(e);
    ghost var b, cvs, listed := Now(e), e.current.cvs, e.current.vars;
    NowIs(e);
    e.Include(vars);
    NowIs(e);
    if !b.onTable {
      HoldsLocals(e.activeTable.slots, cvs, listed);
    }
    IncludeLeads(vars, b, Now(e));
    e.ValidHas();
  }

  /** The steps that start a frame. */
  method DoEnter(e: Executor, step: Step, superglobals: set<string>)
    requires e.Valid() && NoSuperglobals(e.frames, superglobals) && step.Compiled(superglobals)
    requires step.Call? || step.CallBuiltin? || step.Include?
    modifies e`current, e`activeTable, e`frames, e.current`table
    ensures e.Valid() && NoSuperglobals(e.frames, superglobals)
    ensures forall f <- e.frames :: f in old(e.frames) || fresh(f)
    ensures forall f <- e.frames :: f.table == e.activeTable || (f in old(e.frames) && f.table == old(f.table))
    ensures e.activeTable == old(e.activeTable) || e.activeTable == null || fresh(e.activeTable)
    ensures Leads(step, old(Now(e)), Now(e))
  {
    hide *;
    e.ValidHas();
    CompiledIs(step, superglobals);
    ghost var fs := e.frames;
    if step.Call? {
      DoCall(e, step.vars);
      StillNone(e, fs, superglobals);
    } else if step.CallBuiltin? {
      DoBuiltin(e);
      StillNone(e, fs, superglobals);
    } else if e.current.hasOpArray {
      DoInclude(e, step.vars);
      StillNone(e, fs, superglobals);
    } else {
      NowIs(e);
      IncludeNot(step.vars, Now(e));
    }
  }

  lemma CompiledIs(step: Step, superglobals: set<string>)
    requires step.Compiled(superglobals)
    ensures step.Call? || step.Include? ==> Unique(step.vars) && Step.Apart(step.vars, superglobals)
    ensures Step.Apart([], superglobals)
  {
  }

  lemma StillNone(e: Executor, fs: seq<Frame>, superglobals: set<string>)
    requires NoSuperglobals(fs, superglobals) && e.current != null && Step.Apart(e.current.vars, superglobals)
    requires forall f <- e.frames :: f == e.current || f in fs
    ensures NoSuperglobals(e.frames, superglobals)
  {
    hide Step.Apart;
  }

  lemma NowIs(e: Executor)
    requires e.current != null && |e.current.cvs| == |e.current.vars|
    ensures Now(e) == State(e.current.hasOpArray, e.current.vars, e.activeTable != null,
      if e.activeTable != null then e.activeTable.slots else Locals(e.current.cvs, e.current.vars), e.globals.slots, e.frames)
  {
  }

  lemma UniqueIs(e: Executor)
    requires e.Valid()
    ensures Unique(e.current.vars)
  {
    e.ValidHas();
  }

  lemma CallLeads(vars: seq<string>, b: State, a: State, cvs: Cache)
    requires |a.frames| == |b.frames| + 1 && a.frames[..|b.frames|] == b.frames && a.coded && a.listed == vars
    requires |cvs| == |vars| && a.vars == Locals(cvs, vars) && forall i :: 0 <= i < |vars| ==> cvs[i] == None
    ensures Leads(Call(vars), b, a)
  {
    NoLocals(cvs, vars);
  }

  lemma {:induction false} NoLocals(cvs: Cache, vars: seq<string>)
    requires |cvs| == |vars| && forall i :: 0 <= i < |vars| ==> cvs[i] == None
    ensures Locals(cvs, vars) == map[]
  {
    if vars != [] {
      NoLocals(cvs[..|vars| - 1], vars[..|vars| - 1]);
    }
  }

  lemma BuiltinLeads(b: State, a: State)
    requires |a.frames| == |b.frames| + 1 && a.frames[..|b.frames|] == b.frames && !a.coded
    ensures Leads(CallBuiltin, b, a)
  {
  }

  lemma IncludeLeads(vars: seq<string>, b: State, a: State)
    requires |a.frames| == |b.frames| + 1 && a.frames[..|b.frames|] == b.frames && b.coded && a.coded
    requires a.listed == vars && a.vars == b.vars
    ensures Leads(Include(vars), b, a)
  {
  }

  lemma IncludeNot(vars: seq<string>, b: State)
    requires !b.coded
    ensures Leads(Include(vars), b, b)
  {
  }

  /** A lookup of variable v makes it if it is for writing and there is none. */
  method DoFetch(e: Executor, v: nat, write: bool, slot: nat)
    requires e.Valid() && e.current.hasOpArray && v < |e.current.vars|
    modifies e.frames`cvs, e.activeTable
    ensures e.Valid()
    ensures var name := e.current.vars[v];
      Vars(e) == if write && name !in old(Vars(e)) then old(Vars(e))[name := slot] else old(Vars(e))
  {
    hide *;
    CurrentIs(e, v, slot);
    VarsAre(e);
    e.Fetch(v, write, slot);
    VarsAre(e);
  }

  /** A catch makes variable v if there is none. */
  method DoCatch(e: Executor, v: nat, slot: nat)
    requires e.Valid() && e.current.hasOpArray && v < |e.current.vars|
    modifies e.frames`cvs, e.activeTable
    ensures e.Valid()
    ensures var name := e.current.vars[v];
      Vars(e) == if e.activeTable != null && name in old(Vars(e)) then old(Vars(e)) else old(Vars(e))[name := slot]
  {
    hide *;
    CurrentIs(e, v, slot);
    VarsAre(e);
    e.Catch(v, slot);
    VarsAre(e);
  }

  method DoUnset(e: Executor, v: nat)
    requires e.Valid() && e.current.hasOpArray && v < |e.current.vars|
    modifies e.frames`cvs, e.activeTable
    ensures e.Valid() && Vars(e) == old(Vars(e)) - {e.current.vars[v]}
  {
    hide *;
    CurrentIs(e, v, 0);
    VarsAre(e);
    e.UnsetQuick(v);
    VarsAre(e);
  }

  lemma CurrentIs(e: Executor, v: nat, slot: nat)
    requires e.Valid() && e.current.hasOpArray && v < |e.current.vars|
    ensures e.current in e.frames && |e.current.cvs| == |e.current.vars|
    ensures var cvs, vars := e.current.cvs, e.current.vars; var m := Locals(cvs, vars);
      && Locals(cvs[v := Some(slot)], vars) == m[vars[v] := slot]
      && Locals(cvs[v := None], vars) == m - {vars[v]}
      && (vars[v] in m <==> cvs[v].Some?)
      && cvs[v := cvs[v]] == cvs
    ensures e.activeTable != null && e.current.cvs[v].Some? ==> e.current.vars[v] in e.activeTable.slots
  {
    e.ValidHas();
    LocalsWith(e.current.cvs, e.current.vars, v, slot);
    hide Locals, Chain, Contiguous, Included;
  }

  /** What such a step does to variables m where there are no caches. */
  function Effect(step: Step, vars: seq<string>, onTable: bool, m: map<string, nat>): map<string, nat>
    requires step.Fetch? || step.Catch? || step.Unset?
  {
    if step.v >= |vars| then m
    else
      var name := vars[step.v];
      match step
      case Fetch(_, write, slot) => if write && name !in m then m[name := slot] else m
      case Catch(_, slot) => if onTable && name in m then m else m[name := slot]
      case Unset(_) => m - {name}
  }

  /** The steps of code of the current frame that name one of its variables: they do what
      they would without a cache. */
  method DoCompiled(e: Executor, step: Step)
    requires e.Valid() && e.current.hasOpArray
    requires step.Fetch? || step.Catch? || step.Unset?
    modifies e.frames`cvs, e.activeTable
    ensures e.Valid()
    ensures Vars(e) == Effect(step, e.current.vars, e.activeTable != null, old(Vars(e)))
    ensures Leads(step, old(Now(e)), Now(e))
  {
    hide Executor.Valid, Executor.Wf, Vars, Locals, Unique, Chain, Contiguous, Included, AllCoherent, Sized, Distinct, Frame.Coherent;
    e.ValidHas();
    if step.v < |e.current.vars| {
      match step {
        case Fetch(v, write, slot) => DoFetch(e, v, write, slot);
        case Catch(v, slot) => DoCatch(e, v, slot);
        case Unset(v) => DoUnset(e, v);
      }
    }
  }

  /** The steps of code of the current frame that name a variable at run time. */
  method DoNamed(e: Executor, step: Step, superglobals: set<string>)
    requires e.Valid() && e.current.hasOpArray && NoSuperglobals(e.frames, superglobals) && step.Compiled(superglobals)
    requires step.UnsetNamed? || step.UnsetSuperglobal?
    modifies e`activeTable, e.current`table, e.frames`cvs, e.activeTable, e.globals
    ensures e.Valid()
    ensures e.current == old(e.current) && (e.activeTable == old(e.activeTable) || fresh(e.activeTable))
    ensures Leads(step, old(Now(e)), Now(e))
  {
    hide *;
    ghost var b := Now(e);
    e.ValidHas();
    NowIs(e);
    VarsAre(e);
    match step {
      case UnsetNamed(name) =>
        DoUnsetNamed(e, name);
        NowIs(e);
        NamedLeads(name, b, Now(e));
      case UnsetSuperglobal(name) =>
        SuperglobalIs(step, superglobals);
        UnsetSuper(e, name, superglobals);
        NowIs(e);
        SuperglobalLeads(name, b, Now(e));
    }
  }

  method DoUnsetNamed(e: Executor, name: string)
    requires e.Valid() && e.current.hasOpArray
    modifies e`activeTable, e.current`table, e.frames`cvs, e.activeTable
    ensures e.Valid() && e.activeTable != null && (e.activeTable == old(e.activeTable) || fresh(e.activeTable))
    ensures e.activeTable.slots == old(Vars(e)) - {name}
  {
    hide *;
    e.ValidHas();
    UniqueIs(e);
    VarsAre(e);
    if e.activeTable == null {
      e.Rebuild();
      HoldsLocals(e.activeTable.slots, e.current.cvs, e.current.vars);
    }
    ghost var s := e.UnsetByName(name, e.activeTable);
  }

  lemma SuperglobalIs(step: Step, superglobals: set<string>)
    requires step.UnsetSuperglobal? && step.Compiled(superglobals)
    ensures step.name in superglobals
  {
  }

  lemma NamedLeads(name: string, b: State, a: State)
    requires b.coded && a.frames == b.frames && a.vars == b.vars - {name}
    ensures Leads(UnsetNamed(name), b, a)
  {
  }

  lemma SuperglobalLeads(name: string, b: State, a: State)
    requires b.coded && a.frames == b.frames && a.globals == b.globals - {name}
    ensures Leads(UnsetSuperglobal(name), b, a)
  {
  }

  /** The steps of code of the current frame that unset an element of $GLOBALS. A null offset
      is unset only while no frame has the empty name cached. */
  method DoElement(e: Executor, step: Step)
    requires e.Valid() && e.current.hasOpArray
    requires step.UnsetGlobal? || step.UnsetGlobalNumber? || step.UnsetGlobalNull?
    modifies e.frames`cvs, e.globals
    ensures e.Valid()
    ensures !step.UnsetGlobalNumber? ==> Leads(step, old(Now(e)), Now(e))
    ensures step.UnsetGlobalNumber? ==> Now(e) == old(Now(e))
  {
    hide *;
    ghost var b := Now(e);
    NowIs(e);
    if step.UnsetGlobal? {
      e.UnsetGlobal(step.name, step.w);
      NowIs(e);
      ElementLeads(step, b, Now(e));
    } else if step.UnsetGlobalNumber? {
      e.UnsetNumber(step.h);
      NowIs(e);
    } else {
      UnsetUncached(e);
      NowIs(e);
      NullLeads(b, Now(e));
    }
  }

  lemma ElementLeads(step: Step, b: State, a: State)
    requires step.UnsetGlobal? && b.coded && a.frames == b.frames
    requires a.globals == if Normal(step.name + [NUL], step.w).Name? then b.globals - {step.name} else b.globals
    ensures Leads(step, b, a)
  {
  }

  lemma NullLeads(b: State, a: State)
    requires b.coded && a.frames == b.frames && (a.globals == b.globals || a.globals == b.globals - {""})
    ensures Leads(UnsetGlobalNull, b, a)
  {
  }

  method UnsetUncached(e: Executor)
    requires e.Valid()
    modifies e.globals
    ensures e.Valid() && e.globals.slots == if old(e.Cached("", e.globals)) then old(e.globals.slots) else old(e.globals.slots) - {""}
  {
    hide *;
    var cached := e.IsCached("", e.globals);
    if !cached {
      e.UnsetNull();
    }
  }

  /** One step. What the code of the current frame does, a builtin does not do. */
  method Do(e: Executor, step: Step, superglobals: set<string>, ghost repr: set<object>) returns (ghost repr': set<object>)
    requires e.Valid() && NoSuperglobals(e.frames, superglobals) && step.Compiled(superglobals) && Within(e, repr)
    modifies e, repr
    ensures e.Valid() && NoSuperglobals(e.frames, superglobals) && Within(e, repr') && fresh(repr' - repr)
    ensures Leads(step, old(Now(e)), Now(e))
  {
    hide *;
    e.ValidHas();
    if step.Leave? || step.Call? || step.CallBuiltin? || step.Include? {
      repr' := DoFrames(e, step, superglobals, repr);
    } else if e.current.hasOpArray {
      repr' := DoCode(e, step, superglobals, repr);
    } else {
      repr' := repr;
      Idle(e, step);
    }
  }

  method DoFrames(e: Executor, step: Step, superglobals: set<string>, ghost repr: set<object>)
    returns (ghost repr': set<object>)
    requires e.Valid() && NoSuperglobals(e.frames, superglobals) && step.Compiled(superglobals) && Within(e, repr)
    requires step.Leave? || step.Call? || step.CallBuiltin? || step.Include?
    modifies e, repr
    ensures e.Valid() && NoSuperglobals(e.frames, superglobals) && Within(e, repr') && fresh(repr' - repr)
    ensures Leads(step, old(Now(e)), Now(e))
  {
    repr' := repr;
    hide Executor.Wf, Executor.Valid, Step.Compiled, NoSuperglobals, Chain, Contiguous, Included, AllCoherent, Sized;
    hide Distinct, Frame.Coherent, Leads, Now, Vars, Locals, Effect;
    e.ValidHas();
    if step.Leave? {
      DoLeave(e, superglobals);
    } else {
      DoEnter(e, step, superglobals);
      repr' := repr + (set f | f in e.frames) + if e.activeTable != null then {e.activeTable} else {};
    }
  }

  method DoCode(e: Executor, step: Step, superglobals: set<string>, ghost repr: set<object>)
    returns (ghost repr': set<object>)
    requires e.Valid() && NoSuperglobals(e.frames, superglobals) && step.Compiled(superglobals) && Within(e, repr)
    requires e.current.hasOpArray && !(step.Leave? || step.Call? || step.CallBuiltin? || step.Include?)
    modifies e, repr
    ensures e.Valid() && NoSuperglobals(e.frames, superglobals) && Within(e, repr') && fresh(repr' - repr)
    ensures Leads(step, old(Now(e)), Now(e))
  {
    repr' := repr;
    hide Executor.Wf, Executor.Valid, Step.Compiled, NoSuperglobals, Chain, Contiguous, Included, AllCoherent, Sized;
    hide Distinct, Frame.Coherent, Leads, Now, Vars, Locals, Effect;
    e.ValidHas();
    if step.Fetch? || step.Catch? || step.Unset? {
      DoCompiled(e, step);
    } else if step.UnsetGlobal? || step.UnsetGlobalNumber? || step.UnsetGlobalNull? {
      NumberLeads(step, Now(e));
      DoElement(e, step);
    } else {
      DoNamed(e, step, superglobals);
      e.ValidHas();
      repr' := repr + if e.activeTable != null then {e.activeTable} else {};
    }
  }

  /** A builtin takes no step of compiled code. */
  lemma Idle(e: Executor, step: Step)
    requires e.current != null && |e.current.cvs| == |e.current.vars| && !e.current.hasOpArray
    requires !(step.Leave? || step.Call? || step.CallBuiltin? || step.Include?)
    ensures Leads(step, Now(e), Now(e))
  {
  }

  lemma NumberLeads(step: Step, b: State)
    ensures step.UnsetGlobalNumber? ==> Leads(step, b, b)
  {
  }

  method DoLeave(e: Executor, superglobals: set<string>)
    requires e.Valid() && NoSuperglobals(e.frames, superglobals)
    modifies e, e.activeTable
    ensures e.Valid() && NoSuperglobals(e.frames, superglobals)
    ensures forall f <- e.frames :: f in old(e.frames)
    ensures Leads(Leave, old(Now(e)), Now(e))
  {
    e.ValidHas();
    CallerIsFrame(e);
    hide Executor.Wf, Executor.Valid, Step.Apart, Vars;
    if e.current.prev != null {
      e.Leave();
    }
  }

  lemma CallerIsFrame(e: Executor)
    requires e.Wf()
    ensures e.current.prev != null <==> |e.frames| > 1
  {
    ChainTop(e.current.prev, e.frames[..|e.frames| - 1]);
  }

  method UnsetSuper(e: Executor, name: string, superglobals: set<string>)
    requires e.Valid() && NoSuperglobals(e.frames, superglobals) && name in superglobals
    modifies e.frames`cvs, e.globals
    ensures e.Valid() && e.globals.slots == old(e.globals.slots) - {name}
  {
    hide Executor.Wf, Executor.Valid, Unique, Chain, Contiguous, Included, AllCoherent, Distinct, Forgotten;
    NoneStranded(e, name, superglobals);
    ghost var s := e.UnsetByName(name, e.globals);
  }

  lemma NoneStranded(e: Executor, name: string, superglobals: set<string>)
    requires NoSuperglobals(e.frames, superglobals) && name in superglobals
    ensures !e.Stranded(name, e.globals)
  {
    forall i: nat | i < |e.frames| ensures !e.HasOn(Caches(e.frames), i, name, e.globals) {
      assert Step.Apart(e.frames[i].vars, superglobals);
    }
  }

  /** Whatever the program does, every slot a frame has cached is the one its symbol table
      has, frames on one table stay next to each other, and so on; and each step leads to the
      next of states. */
  method Run(e: Executor, program: seq<Step>, superglobals: set<string>) returns (ghost states: seq<State>)
    requires e.Valid() && NoSuperglobals(e.frames, superglobals)
    requires forall step <- program :: step.Compiled(superglobals)
    modifies e, e.frames, e.globals, set f | f in e.frames && f.table != null :: f.table
    ensures e.Valid()
    ensures |states| == |program| + 1 && states[0] == old(Now(e)) && states[|program|] == Now(e)
    ensures forall i :: 0 <= i < |program| ==> Leads(program[i], states[i], states[i + 1])
  {
    ghost var tables: set<object> := set f | f in e.frames && f.table != null :: f.table;
    ghost var frames: set<object> := set f | f in e.frames;
    ghost var repr := tables + frames + {e.globals};
    ghost var repr0 := repr;
    assert Within(e, repr);
    hide Executor.Wf, Executor.Valid, Within, Leads, Now;
    states := [Now(e)];
    for i := 0 to |program|
      invariant e.Valid() && NoSuperglobals(e.frames, superglobals) && Within(e, repr) && fresh(repr - repr0)
      invariant |states| == i + 1 && states[0] == old(Now(e)) && states[i] == Now(e)
      invariant forall j :: 0 <= j < i ==> Leads(program[j], states[j], states[j + 1])
    {
      repr := Do(e, program[i], superglobals, repr);
      states := states + [Now(e)];
    }
  }

  /** A function called by a function: the main frame has x cached, they have no table. */
  method Called() returns (e: Executor)
    ensures e.Valid() && fresh(e) && fresh(e.frames) && fresh(e.globals) && |e.frames| == 3
    ensures var main := e.frames[0];
      main.table == e.globals && main.hasOpArray && main.vars == ["x"] && |main.cvs| == 1 && main.cvs[0].Some?
    ensures e.frames[1].table == null && "x" in e.globals.slots
  {
    e := CalledOnce();
    var vars: seq<string> := [];
    assert Unique(vars);
    hide *;
    e.ValidHas();
    e.Call(vars);
  }

  method CalledOnce() returns (e: Executor)
    ensures e.Valid() && fresh(e) && fresh(e.frames) && fresh(e.globals) && |e.frames| == 2
    ensures var main := e.frames[0];
      main.table == e.globals && main.hasOpArray && main.vars == ["x"] && |main.cvs| == 1 && main.cvs[0].Some?
    ensures e.frames[1].table == null && "x" in e.globals.slots
  {
    e := new Executor(["x"]);
    hide *;
    e.Fetch(0, true, 7);
    e.ValidHas();
    e.Call([]);
    e.ValidHas();
  }

  /** The early stop is sound only for the table of the current frame: unsetting by name a
      global from a function called by a function leaves the cache of the main frame with
      a slot that its table no longer has. No compiled code does this: it unsets by name in
      another table only superglobals, which no frame has cached. */
  method StaleCache() returns (e: Executor)
    ensures !e.Valid()
  {
    e := Called();
    hide Executor.Wf, Executor.Valid, Unique, Chain, Contiguous, Included, AllCoherent, Sized, Distinct, Without;
    var main := e.frames[0];
    assert main.vars[0] == "x" && main.cvs[0].Some? && Caches(e.frames)[0] == main.cvs;
    assert e.HasOn(Caches(e.frames), 0, "x", e.globals);
    ghost var s := e.UnsetByName("x", e.globals);
  }

  /** Unsetting a null offset of $GLOBALS leaves a frame that has the empty name cached with
      a slot that its table no longer has. */
  method StaleEmptyName() returns (e: Executor)
    ensures !e.Valid()
  {
    e := new Executor([""]);
    e.Fetch(0, true, 7);
    hide Executor.Wf, Executor.Valid, Unique, Chain, Contiguous, Included, AllCoherent, Sized, Distinct, Without;
    assert e.current.vars[0] == "" && Caches(e.frames)[0] == e.current.cvs;
    assert e.HasOn(Caches(e.frames), 0, "", e.globals);
    e.UnsetNull();
  }
}
