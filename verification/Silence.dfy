/** The silence operator over frames and exceptions. */
module Silence {
  import opened Wrappers

  /** A frame: its temporaries that hold numbers, and EX(old_error_reporting), which
      points to one of them. */
  class Frame {
    var temps: map<nat, int>
    var oldErrorReporting: Option<nat>

    constructor ()
      ensures oldErrorReporting == None
    {
      temps, oldErrorReporting := map[], None;
    }
  }

  class Executor {
    /** EG(error_reporting) */
    var errorReporting: int

    /** ZEND_BEGIN_SILENCE, whose result is temporary t. */
    method BeginSilence(f: Frame, t: nat)
      modifies this, f
      ensures errorReporting == 0 && f.temps == old(f.temps)[t := old(errorReporting)]
      ensures f.oldErrorReporting == if old(f.oldErrorReporting).None? then Some(t) else old(f.oldErrorReporting)
    {
      f.temps := f.temps[t := errorReporting];
      if f.oldErrorReporting == None {
        f.oldErrorReporting := Some(t);
      }
      if errorReporting != 0 {
        errorReporting := 0;
      }
    }

    /** ZEND_END_SILENCE of temporary t. */
    method EndSilence(f: Frame, t: nat)
      requires t in f.temps
      modifies this, f`oldErrorReporting
      ensures errorReporting == if old(errorReporting) == 0 then f.temps[t] else old(errorReporting)
      ensures f.oldErrorReporting == if old(f.oldErrorReporting) == Some(t) then None else old(f.oldErrorReporting)
    {
      if errorReporting == 0 && f.temps[t] != 0 {
        errorReporting := f.temps[t];
      }
      if f.oldErrorReporting == Some(t) {
        f.oldErrorReporting := None;
      }
    }

    /** The end of ZEND_HANDLE_EXCEPTION. */
    method Restore(f: Frame)
      requires f.oldErrorReporting.Some? ==> f.oldErrorReporting.value in f.temps
      modifies this, f`oldErrorReporting
      ensures errorReporting == if old(errorReporting) == 0 && old(f.oldErrorReporting).Some?
        then f.temps[old(f.oldErrorReporting).value] else old(errorReporting)
      ensures f.oldErrorReporting == None
    {
      if errorReporting == 0 && f.oldErrorReporting != None && f.temps[f.oldErrorReporting.value] != 0 {
        errorReporting := f.temps[f.oldErrorReporting.value];
      }
      f.oldErrorReporting := None;
    }

    /** With the silences live open in frame f, outermost first, error reporting was
        entry before the outermost one. */
    ghost predicate Silenced(f: Frame, live: seq<nat>, entry: int)
      reads this, f
    {
      if live == [] then f.oldErrorReporting == None && errorReporting == entry
      else
        && f.oldErrorReporting == Some(live[0]) && live[0] in f.temps && f.temps[live[0]] == entry
        && errorReporting == 0
    }

    /** Runs code inside the open silences. Without an exception they are as before; with
        one, others may be open too. */
    method Exec(f: Frame, code: Code, ghost live: seq<nat>, ghost entry: int)
      returns (thrown: bool, seen: seq<int>, ghost open: seq<nat>)
      requires Silenced(f, live, entry) && WellFormed(code, live)
      modifies this, f
      ensures Silenced(f, open, entry) && live <= open && (!thrown ==> open == live)
      ensures forall t <- live :: (t in f.temps <==> t in old(f.temps)) && (t in f.temps ==> f.temps[t] == old(f.temps[t]))
      ensures errorReporting == if open == [] then entry else 0
      ensures thrown <==> Throws(code)
      ensures seen == Seen(code, old(errorReporting))
      decreases code, 1
    {
      thrown, seen, open := false, [], live;
      match code
      case Nil =>
      case Throw =>
        thrown := true;
      case Report(rest) =>
        var level := errorReporting;
        thrown, seen, open := Exec(f, rest, live, entry);
        seen := [level] + seen;
      case Silence(t, inner, rest) =>
        ghost var before := errorReporting;
        BeginSilence(f, t);
        thrown, seen, open := Exec(f, inner, live + [t], entry);
        if thrown {
          return;
        }
        assert f.temps[t] == before;
        EndSilence(f, t);
        var more;
        thrown, more, open := Exec(f, rest, live, entry);
        seen := seen + more;
      case Call(body, rest) =>
        thrown, seen := Run(body);
        if thrown {
          return;
        }
        var more;
        thrown, more, open := Exec(f, rest, live, entry);
        seen := seen + more;
    }

    /** Runs a function in a frame of its own. Whether it ends normally, catches what its
        code or its handlers throw, or passes an exception on, and whatever silences the
        exception cut short, error reporting is what it was. */
    method Run(body: Body) returns (thrown: bool, seen: seq<int>)
      requires WellFormedBody(body)
      modifies this
      ensures errorReporting == old(errorReporting)
      ensures thrown <==> Escapes(body)
      ensures seen == SeenIn(body, old(errorReporting))
      decreases body, 2
    {
      var f := new Frame();
      thrown, seen := RunIn(f, body);
    }

    method RunIn(f: Frame, body: Body) returns (thrown: bool, seen: seq<int>)
      requires WellFormedBody(body) && f.oldErrorReporting == None
      modifies this, f
      ensures errorReporting == old(errorReporting) && f.oldErrorReporting == None
      ensures thrown <==> Escapes(body)
      ensures seen == SeenIn(body, old(errorReporting))
      decreases body, 1
    {
      ghost var entry, open := errorReporting, [];
      var code := body.code;
      thrown, seen, open := Exec(f, code, [], entry);
      if thrown {
        Restore(f);
        if body.Caught? {
          var more;
          thrown, more := RunIn(f, body.handler);
          seen := seen + more;
        }
      }
    }
  }

  /** What a frame does: nothing more, throw, report an error, silence an expression, or call
      a function; then the rest. */
  datatype Code =
    | Nil
    | Throw
    | Report(rest: Code)
    | Silence(temp: nat, inner: Code, rest: Code)
    | Call(body: Body, rest: Code)

  /** A function, and what runs in its frame when its code throws, if anything does. */
  datatype Body = Uncaught(code: Code) | Caught(code: Code, handler: Body)

  /** The code ends with an exception. */
  predicate Throws(code: Code) {
    match code
    case Nil => false
    case Throw => true
    case Report(rest) => Throws(rest)
    case Silence(_, inner, rest) => Throws(inner) || Throws(rest)
    case Call(body, rest) => Escapes(body) || Throws(rest)
  }

  /** The function passes an exception on. */
  predicate Escapes(body: Body) {
    match body
    case Uncaught(code) => Throws(code)
    case Caught(code, handler) => Throws(code) && Escapes(handler)
  }

  /** The levels of error reporting that the errors find: none inside a silence, elsewhere
      level. */
  function Seen(code: Code, level: int): seq<int> {
    match code
    case Nil => []
    case Throw => []
    case Report(rest) => [level] + Seen(rest, level)
    case Silence(_, inner, rest) => Seen(inner, 0) + if Throws(inner) then [] else Seen(rest, level)
    case Call(body, rest) => SeenIn(body, level) + if Escapes(body) then [] else Seen(rest, level)
  }

  function SeenIn(body: Body, level: int): seq<int> {
    match body
    case Uncaught(code) => Seen(code, level)
    case Caught(code, handler) => Seen(code, level) + if Throws(code) then SeenIn(handler, level) else []
  }

  /** The compiler gives nested silences different temporaries. */
  predicate WellFormed(code: Code, live: seq<nat>) {
    match code
    case Nil => true
    case Throw => true
    case Report(rest) => WellFormed(rest, live)
    case Silence(t, inner, rest) => t !in live && WellFormed(inner, live + [t]) && WellFormed(rest, live)
    case Call(body, rest) => WellFormedBody(body) && WellFormed(rest, live)
  }

  predicate WellFormedBody(body: Body) {
    match body
    case Uncaught(code) => WellFormed(code, [])
    case Caught(code, handler) => WellFormed(code, []) && WellFormedBody(handler)
  }
}
