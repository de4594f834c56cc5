/** The walk over a directory tree, and recursive deletion. */
module FileTree {
  import opened Wrappers
  import opened Numerals
  import opened NumericText

  /** A tree of files. A link counts as a file. The entries of a directory are in the order
      of its listing, without `.` and `..`. */
  datatype Node = File | Directory(readable: bool, entries: seq<Entry>)

  datatype Entry = Entry(name: string, node: Node)

  /** The lists that a walk makes. */
  datatype Struct = Struct(dirs: seq<string>, files: seq<string>)

  const SEPARATOR: char := '/'
  const ROOT: string := [SEPARATOR]

  /** An entry of the directory with real path path, as the walk names it. */
  function Inside(path: string, name: string): string {
    path + [SEPARATOR] + name
  }

  /** The real path of that name. */
  function Join(path: string, name: string): string {
    if path == ROOT then path + name else Inside(path, name)
  }

  /** The walk lists a directory by its real path, and a file by the name in its directory. */
  function EntryPath(path: string, e: Entry): string {
    if e.node.File? then Inside(path, e.name) else Join(path, e.name)
  }

  predicate IsName(name: string) {
    name != [] && SEPARATOR !in name
  }

  predicate WellFormed(n: Node) {
    match n
    case File => true
    case Directory(_, entries) =>
      && (forall e <- entries :: IsName(e.name) && WellFormed(e.node))
      && (forall i, j :: 0 <= i < j < |entries| ==> entries[i].name != entries[j].name)
  }

  /** What is reached from n by names, through directories that can be read. */
  function Reached(n: Node, names: seq<string>): Option<Node>
    decreases |names|, 1, 0
  {
    if names == [] then Some(n)
    else match n
      case File => None
      case Directory(readable, entries) => if readable then ReachedAmong(entries, names) else None
  }

  function ReachedAmong(entries: seq<Entry>, names: seq<string>): Option<Node>
    requires names != []
    decreases |names|, 0, |entries|
  {
    if entries == [] then None
    else if entries[0].name == names[0] then Reached(entries[0].node, names[1..])
    else ReachedAmong(entries[1..], names)
  }

  /** The path listed for what is reached from the directory path by names. */
  function Path(path: string, names: seq<string>, kind: Kind): string
    decreases |names|
  {
    if names == [] then path
    else if |names| == 1 && kind == IsFile then Inside(path, names[0])
    else Path(Join(path, names[0]), names[1..], kind)
  }

  datatype Kind = IsFile | IsDirectory

  predicate HasKind(n: Node, kind: Kind) {
    match n
    case File => kind == IsFile
    case Directory(readable, _) => kind == IsDirectory && readable
  }

  /** The entry that the path goes through. */
  lemma PathEntry(n: Node, path: string, names: seq<string>, kind: Kind) returns (j: nat)
    requires WellFormed(n) && names != [] && Reached(n, names).Some? && HasKind(Reached(n, names).value, kind)
    ensures n.Directory? && j < |n.entries| && n.entries[j].name == names[0]
    ensures Reached(n, names) == Reached(n.entries[j].node, names[1..])
    ensures var p := Path(path, names, kind);
      && p == Path(EntryPath(path, n.entries[j]), names[1..], kind)
      && |path| < |p| && EntryName(p[|path|..]) == names[0]
  {
    j := ReachedSome(n.entries, names);
    var e := n.entries[j];
    if e.node.File? {
      assert names[1..] == [] && kind == IsFile;
    }
    PathUnder(EntryPath(path, e), names[1..], kind);
    EntryOf(path, e, Path(path, names, kind));
  }

  lemma {:induction false} PathInjective(n: Node, path: string, names: seq<string>, names': seq<string>, kind: Kind, kind': Kind)
    requires WellFormed(n)
    requires Reached(n, names).Some? && HasKind(Reached(n, names).value, kind)
    requires Reached(n, names').Some? && HasKind(Reached(n, names').value, kind')
    requires Path(path, names, kind) == Path(path, names', kind')
    ensures names == names'
    decreases |names|
  {
    if names != [] && names' != [] {
      var j := PathEntry(n, path, names, kind);
      var j' := PathEntry(n, path, names', kind');
      PathInjective(n.entries[j].node, EntryPath(path, n.entries[j]), names[1..], names'[1..], kind, kind');
    } else if names != [] {
      var j := PathEntry(n, path, names, kind);
    } else if names' != [] {
      var j := PathEntry(n, path, names', kind');
    }
  }

  lemma OneKind(n: Node, path: string, p: string)
    requires WellFormed(n)
    ensures !(Contains(n, path, 0, 0, IsFile, p) && Contains(n, path, 0, 0, IsDirectory, p))
  {
    if Contains(n, path, 0, 0, IsFile, p) && Contains(n, path, 0, 0, IsDirectory, p) {
      var names :| IsAt(p, n, path, names, IsFile);
      var names' :| IsAt(p, n, path, names', IsDirectory);
      PathInjective(n, path, names, names', IsFile, IsDirectory);
    }
  }

  /** Depth k below a directory at depth start is within the limit, where 0 is no limit. */
  predicate Within(k: nat, start: nat, limit: nat) {
    k == 0 || limit == 0 || start + k <= limit
  }

  ghost predicate IsAt(p: string, n: Node, path: string, names: seq<string>, kind: Kind) {
    && p == Path(path, names, kind)
    && Reached(n, names).Some? && HasKind(Reached(n, names).value, kind)
  }

  /** p is a path of that kind in tree n at path, no deeper than the limit. */
  ghost predicate Contains(n: Node, path: string, start: nat, limit: nat, kind: Kind, p: string) {
    exists names :: IsAt(p, n, path, names, kind) && Within(|names|, start, limit)
  }

  // ------------------------------------------------------------------ the walk

  predicate NoDuplicates(s: seq<string>) {
    forall i, j :: 0 <= i < j < |s| ==> s[i] != s[j]
  }

  /** p is in the directory path, at any depth. */
  predicate Below(path: string, p: string) {
    if path == ROOT then path < p else path + [SEPARATOR] <= p
  }

  lemma BelowIs(path: string)
    ensures forall p :: Below(path, p) <==> if path == "/" then "/" <= p && p != "/" else path + "/" <= p
    ensures forall p :: Under(path, p) <==> p == path || Below(path, p)
  {
  }

  predicate Under(path: string, p: string) {
    p == path || Below(path, p)
  }

  lemma {:induction false} PathUnder(path: string, names: seq<string>, kind: Kind)
    ensures Under(path, Path(path, names, kind))
    decreases |names|
  {
    if names != [] && !(|names| == 1 && kind == IsFile) {
      PathUnder(Join(path, names[0]), names[1..], kind);
    }
  }

  /** The name that s starts with. */
  function FirstName(s: string): string {
    if s == [] || s[0] == SEPARATOR then [] else [s[0]] + FirstName(s[1..])
  }

  lemma {:induction false} FirstNameOf(s: string, name: string)
    requires SEPARATOR !in name && name <= s && (|name| < |s| ==> s[|name|] == SEPARATOR)
    ensures FirstName(s) == name
  {
    if name != [] {
      assert s[0] == name[0];
      FirstNameOf(s[1..], name[1..]);
    }
  }

  /** The name that s starts with after separators. */
  function EntryName(s: string): string {
    if s != [] && s[0] == SEPARATOR then EntryName(s[1..]) else FirstName(s)
  }

  /** A path below path tells the entry it is under. */
  lemma EntryOf(path: string, e: Entry, p: string)
    requires IsName(e.name) && Under(EntryPath(path, e), p)
    ensures |path| < |p| && EntryName(p[|path|..]) == e.name
  {
    var q := EntryPath(path, e);
    var mid := if e.node.Directory? && path == ROOT then [] else [SEPARATOR];
    assert q == path + mid + e.name;
    assert q[|q| - 1] == e.name[|e.name| - 1] && q != ROOT;
    var rest := p[|q|..];
    assert p == q + rest && (rest == [] || rest[0] == SEPARATOR);
    Split3(path, mid, e.name, rest, p);
    EntryNameOf(mid, e.name, rest);
  }

  lemma Split3(path: string, mid: string, name: string, rest: string, p: string)
    requires p == path + mid + name + rest
    ensures p[|path|..] == mid + (name + rest)
  {
  }

  lemma EntryNameOf(mid: string, name: string, rest: string)
    requires IsName(name) && (mid == [] || mid == [SEPARATOR]) && (rest == [] || rest[0] == SEPARATOR)
    ensures EntryName(mid + (name + rest)) == name
  {
    var t := name + rest;
    assert t[0] == name[0];
    FirstNameOf(t, name);
    assert EntryName(t) == name;
    if mid == [] {
      assert mid + t == t;
    } else {
      assert (mid + t)[0] == SEPARATOR && (mid + t)[1..] == t;
    }
  }

  /** The tree below the first i entries. */
  ghost predicate ContainsBelow(entries: seq<Entry>, i: nat, path: string, start: nat, limit: nat, kind: Kind, p: string)
    requires i <= |entries|
  {
    exists j :: 0 <= j < i && Contains(entries[j].node, EntryPath(path, entries[j]), start + 1, limit, kind, p)
  }

  lemma {:induction false} ReachedOne(entries: seq<Entry>, j: nat, names: seq<string>)
    requires j < |entries| && names != [] && entries[j].name == names[0]
    requires forall k :: 0 <= k < j ==> entries[k].name != names[0]
    ensures ReachedAmong(entries, names) == Reached(entries[j].node, names[1..])
  {
    if j > 0 {
      ReachedOne(entries[1..], j - 1, names);
    }
  }

  lemma {:induction false} ReachedSome(entries: seq<Entry>, names: seq<string>) returns (j: nat)
    requires names != [] && ReachedAmong(entries, names).Some?
    ensures j < |entries| && entries[j].name == names[0]
    ensures ReachedAmong(entries, names) == Reached(entries[j].node, names[1..])
  {
    if entries[0].name == names[0] {
      j := 0;
    } else {
      var k := ReachedSome(entries[1..], names);
      j := k + 1;
    }
  }

  /** A directory contains itself, and what its entries do if the limit lets them in. */
  lemma ContainsEntries(n: Node, path: string, start: nat, limit: nat, kind: Kind, p: string)
    requires n.Directory? && n.readable && WellFormed(n)
    ensures Contains(n, path, start, limit, kind, p) <==>
      || (kind == IsDirectory && p == path)
      || ((start < limit || limit == 0) && ContainsBelow(n.entries, |n.entries|, path, start, limit, kind, p))
  {
    if Contains(n, path, start, limit, kind, p) {
      var names :| IsAt(p, n, path, names, kind) && Within(|names|, start, limit);
      if names != [] {
        var j := PathEntry(n, path, names, kind);
        assert IsAt(p, n.entries[j].node, EntryPath(path, n.entries[j]), names[1..], kind);
      }
    }
    if kind == IsDirectory && p == path {
      assert IsAt(p, n, path, [], kind);
    }
    if start < limit || limit == 0 {
      EntriesContained(n, path, start, limit, kind, p);
    }
  }

  lemma EntriesContained(n: Node, path: string, start: nat, limit: nat, kind: Kind, p: string)
    requires n.Directory? && n.readable && WellFormed(n) && (start < limit || limit == 0)
    ensures ContainsBelow(n.entries, |n.entries|, path, start, limit, kind, p) ==> Contains(n, path, start, limit, kind, p)
  {
    if ContainsBelow(n.entries, |n.entries|, path, start, limit, kind, p) {
      var j :| 0 <= j < |n.entries|
        && Contains(n.entries[j].node, EntryPath(path, n.entries[j]), start + 1, limit, kind, p);
      var e := n.entries[j];
      var names :| IsAt(p, e.node, EntryPath(path, e), names, kind) && Within(|names|, start + 1, limit);
      PathLonger(path, e, names, kind);
      ReachedLonger(n, j, names);
      hide *;
      ContainsAt(p, n, path, [e.name] + names, start, limit, kind);
    }
  }

  lemma ContainsAt(p: string, n: Node, path: string, names: seq<string>, start: nat, limit: nat, kind: Kind)
    requires p == Path(path, names, kind) && Reached(n, names).Some? && HasKind(Reached(n, names).value, kind)
    requires Within(|names|, start, limit)
    ensures Contains(n, path, start, limit, kind, p)
  {
    hide Path, Reached, HasKind;
    assert IsAt(p, n, path, names, kind);
  }

  lemma ReachedLonger(n: Node, j: nat, names: seq<string>)
    requires n.Directory? && n.readable && WellFormed(n) && j < |n.entries|
    ensures Reached(n, [n.entries[j].name] + names) == Reached(n.entries[j].node, names)
  {
    var longer := [n.entries[j].name] + names;
    assert longer[1..] == names;
    ReachedOne(n.entries, j, longer);
  }

  lemma PathLonger(path: string, e: Entry, names: seq<string>, kind: Kind)
    requires Reached(e.node, names).Some? && HasKind(Reached(e.node, names).value, kind)
    ensures Path(path, [e.name] + names, kind) == Path(EntryPath(path, e), names, kind)
  {
    assert ([e.name] + names)[1..] == names;
  }

  lemma ContainsUnder(n: Node, path: string, start: nat, limit: nat, kind: Kind, p: string)
    requires Contains(n, path, start, limit, kind, p)
    ensures Under(path, p)
  {
    var names :| IsAt(p, n, path, names, kind) && Within(|names|, start, limit);
    PathUnder(path, names, kind);
  }

  ghost predicate Lists(s: seq<string>, n: Node, path: string, start: nat, limit: nat, kind: Kind) {
    NoDuplicates(s) && forall p :: p in s <==> Contains(n, path, start, limit, kind, p)
  }

  ghost predicate ListsBelow(s: seq<string>, entries: seq<Entry>, i: nat, path: string, start: nat, limit: nat, kind: Kind)
    requires i <= |entries|
  {
    NoDuplicates(s) && forall p :: p in s <==> ContainsBelow(entries, i, path, start, limit, kind, p)
  }

  lemma ListsNext(s: seq<string>, t: seq<string>, n: Node, i: nat, path: string, start: nat, limit: nat, kind: Kind)
    requires n.Directory? && WellFormed(n) && i < |n.entries| && ListsBelow(s, n.entries, i, path, start, limit, kind)
    requires Lists(t, n.entries[i].node, EntryPath(path, n.entries[i]), start + 1, limit, kind)
    ensures ListsBelow(s + t, n.entries, i + 1, path, start, limit, kind)
  {
    var entries := n.entries;
    var below := EntryPath(path, entries[i]);
    forall p | p in s ensures p !in t {
      var j :| 0 <= j < i && Contains(entries[j].node, EntryPath(path, entries[j]), start + 1, limit, kind, p);
      ContainsUnder(entries[j].node, EntryPath(path, entries[j]), start + 1, limit, kind, p);
      EntryOf(path, entries[j], p);
      if Contains(entries[i].node, below, start + 1, limit, kind, p) {
        ContainsUnder(entries[i].node, below, start + 1, limit, kind, p);
        EntryOf(path, entries[i], p);
      }
    }
    NoDuplicatesSum(s, t);
  }

  lemma NoDuplicatesSum(s: seq<string>, t: seq<string>)
    ensures NoDuplicates(s + t) <==> NoDuplicates(s) && NoDuplicates(t) && forall p <- s :: p !in t
  {
    if NoDuplicates(s + t) {
      forall i, j | 0 <= i < j < |s| ensures s[i] != s[j] {
        assert (s + t)[i] != (s + t)[j];
      }
      forall i, j | 0 <= i < j < |t| ensures t[i] != t[j] {
        assert (s + t)[|s| + i] != (s + t)[|s| + j];
      }
      forall p | p in s ensures p !in t {
        var i :| 0 <= i < |s| && s[i] == p;
        forall j | 0 <= j < |t| ensures t[j] != p {
          assert (s + t)[i] != (s + t)[|s| + j];
        }
      }
    } else if NoDuplicates(s) && NoDuplicates(t) {
      var i, j :| 0 <= i < j < |s + t| && (s + t)[i] == (s + t)[j];
      assert (s + t)[i] in s && (s + t)[j] in t;
    }
  }

  lemma ListsWhole(s: seq<string>, n: Node, path: string, start: nat, limit: nat, kind: Kind)
    requires n.Directory? && n.readable && WellFormed(n)
    requires if start < limit || limit == 0 then ListsBelow(s, n.entries, |n.entries|, path, start, limit, kind) else s == []
    ensures Lists(if kind == IsDirectory then [path] + s else s, n, path, start, limit, kind)
  {
    var t := if kind == IsDirectory then [path] + s else s;
    forall p ensures p in t <==> Contains(n, path, start, limit, kind, p) {
      ContainsEntries(n, path, start, limit, kind, p);
    }
    forall p | p in s ensures p != path {
      var j :| 0 <= j < |n.entries|
        && Contains(n.entries[j].node, EntryPath(path, n.entries[j]), start + 1, limit, kind, p);
      ContainsUnder(n.entries[j].node, EntryPath(path, n.entries[j]), start + 1, limit, kind, p);
      EntryOf(path, n.entries[j], p);
    }
    NoDuplicatesSum([path], s);
  }

  // ------------------------------------------------------------------ what the paths are

  /** The names, each behind a separator. */
  function Slashed(names: seq<string>): string {
    if names == [] then "" else "/" + names[0] + Slashed(names[1..])
  }

  /** p is the path of the directory, then each name behind a separator. In the root directory
      that makes two separators before a file, but one before a directory and all below it. */
  predicate IsText(p: string, path: string, names: seq<string>, kind: Kind) {
    p ==
      if path != "/" then path + Slashed(names)
      else if names == [] then "/"
      else if kind == IsFile && |names| == 1 then "/" + Slashed(names)
      else Slashed(names)
  }

  lemma {:induction false} PathText(path: string, names: seq<string>, kind: Kind)
    requires forall name <- names :: name != ""
    ensures IsText(Path(path, names, kind), path, names, kind)
    decreases |names|
  {
    if names != [] {
      var x, rest := names[0], names[1..];
      assert x in names && forall name <- rest :: name in names;
      assert Slashed(names) == "/" + x + Slashed(rest);
      if |names| == 1 && kind == IsFile {
        assert rest == [] && Slashed(names) == "/" + x;
        assert Inside(path, x) == path + Slashed(names);
      } else {
        assert Join(path, x)[|Join(path, x)| - 1] == x[|x| - 1];
        assert Join(path, x) != "/" by {
          assert |Join(path, x)| > 1;
        }
        PathText(Join(path, x), rest, kind);
        if path == "/" {
          assert Join(path, x) + Slashed(rest) == Slashed(names);
        } else {
          assert Join(path, x) + Slashed(rest) == path + Slashed(names);
        }
      }
    }
  }

  lemma {:induction false} ReachedNames(n: Node, names: seq<string>)
    requires WellFormed(n) && Reached(n, names).Some?
    ensures forall name <- names :: name != "" && '/' !in name
    decreases |names|
  {
    if names != [] {
      var j := ReachedSome(n.entries, names);
      ReachedNames(n.entries[j].node, names[1..]);
      assert names == [names[0]] + names[1..];
    }
  }

  /** Names lead from entry to entry, through directories that can be read. */
  lemma ReachedByNames(n: Node, names: seq<string>, m: Node)
    requires WellFormed(n)
    ensures Reached(n, names) == Some(m) <==>
      if names == [] then m == n
      else n.Directory? && n.readable && exists e <- n.entries :: e.name == names[0] && Reached(e.node, names[1..]) == Some(m)
  {
    if names != [] && n.Directory? && n.readable {
      if Reached(n, names).Some? {
        var j := ReachedSome(n.entries, names);
      }
      forall e | e in n.entries && e.name == names[0] ensures Reached(n, names) == Reached(e.node, names[1..]) {
        var j :| 0 <= j < |n.entries| && n.entries[j] == e;
        ReachedOne(n.entries, j, names);
      }
    }
  }

  /** p is the text of what names lead to from n, no deeper than the limit: a file, or a
      directory that can be read. */
  ghost predicate Found(n: Node, path: string, start: nat, limit: nat, kind: Kind, p: string, names: seq<string>) {
    && Reached(n, names).Some? && IsText(p, path, names, kind)
    && (names == [] || limit == 0 || start + |names| <= limit)
    && match Reached(n, names).value
       case File => kind == IsFile
       case Directory(readable, _) => kind == IsDirectory && readable
  }

  lemma ContainsText(n: Node, path: string, start: nat, limit: nat, kind: Kind, p: string)
    requires WellFormed(n)
    ensures Contains(n, path, start, limit, kind, p) <==> exists names :: Found(n, path, start, limit, kind, p, names)
  {
    forall names | Reached(n, names).Some?
      ensures Found(n, path, start, limit, kind, p, names) <==> IsAt(p, n, path, names, kind) && Within(|names|, start, limit)
    {
      ReachedNames(n, names);
      PathText(path, names, kind);
    }
  }

  // ------------------------------------------------------------------ one tree

  /** _dirToStruct: lists each directory and each file of the tree within the limit exactly
      once, as far as directories can be opened. path is the real path of n. */
  method DirToStruct(n: Node, path: string, limit: nat, start: nat) returns (s: Struct)
    requires n.Directory? && WellFormed(n)
    ensures Lists(s.dirs, n, path, start, limit, IsDirectory)
    ensures Lists(s.files, n, path, start, limit, IsFile)
    ensures forall p :: p in s.dirs <==> exists names :: Found(n, path, start, limit, IsDirectory, p, names)
    ensures forall p :: p in s.files <==> exists names :: Found(n, path, start, limit, IsFile, p, names)
    decreases n
  {
    forall kind, p
      ensures Contains(n, path, start, limit, kind, p) <==> exists names :: Found(n, path, start, limit, kind, p, names)
    {
      ContainsText(n, path, start, limit, kind, p);
    }
    hide Found;
    s := Struct([], []);
    if !n.readable {
      return;
    }
    ghost var dirs: seq<string> := [];
    s := s.(dirs := s.dirs + [path]);
    if start < limit || limit == 0 {
      for i := 0 to |n.entries|
        invariant s.dirs == [path] + dirs
        invariant ListsBelow(dirs, n.entries, i, path, start, limit, IsDirectory)
        invariant ListsBelow(s.files, n.entries, i, path, start, limit, IsFile)
      {
        var e := n.entries[i];
        var below := Inside(path, e.name);
        ghost var s0 := s;
        ghost var t := Struct([], [below]);
        if e.node.Directory? {
          var tmp := DirToStruct(e.node, Join(path, e.name), limit, start + 1);
          s := Struct(s.dirs + tmp.dirs, s.files + tmp.files);
          t := tmp;
        } else {
          s := s.(files := s.files + [below]);
        }
        ListsNext(dirs, t.dirs, n, i, path, start, limit, IsDirectory);
        ListsNext(s0.files, t.files, n, i, path, start, limit, IsFile);
        dirs := dirs + t.dirs;
      }
    }
    ListsWhole(dirs, n, path, start, limit, IsDirectory);
    ListsWhole(s.files, n, path, start, limit, IsFile);
  }

  // ------------------------------------------------------------------ several trees

  /** An argument: a name that is taken for that of a file, as are those of links and those
      of nothing, or a directory and its real path. */
  datatype Argument = Named(name: string) | Tree(realPath: string, root: Node)
  {
    predicate Proper() {
      Tree? ==> root.Directory? && WellFormed(root)
    }
  }

  ghost predicate ListedIn(args: seq<Argument>, kind: Kind, p: string) {
    exists i :: 0 <= i < |args| && ListedBy(args[i], kind, p)
  }

  /** p is listed for the argument: a file by the name given, a directory's tree by its real
      path. */
  ghost predicate ListedBy(arg: Argument, kind: Kind, p: string) {
    match arg
    case Named(name) => kind == IsFile && p == name
    case Tree(realPath, root) => Contains(root, realPath, 0, 0, kind, p)
  }

  /** What is compared as in_array compares: a relation on strings that also holds between
      different texts of one number. */
  type Alike = (string, string) -> bool

  /** p is listed as a file once the arguments have had their turns: a file argument is left
      out when a file already listed is alike. */
  ghost predicate FileListed(args: seq<Argument>, alike: Alike, p: string)
    decreases |args|, 0
  {
    args != [] &&
    var n := |args| - 1;
    || FileListed(args[..n], alike, p)
    || (ListedBy(args[n], IsFile, p) && (args[n].Tree? || !Taken(args[..n], alike, p)))
  }

  ghost predicate Taken(args: seq<Argument>, alike: Alike, p: string)
    decreases |args|, 1
  {
    exists q :: FileListed(args, alike, q) && alike(p, q)
  }

  /** The names of files that are listed, in the order of the arguments. */
  ghost function NamedFiles(args: seq<Argument>, alike: Alike): seq<string> {
    if args == [] then []
    else
      var n := |args| - 1;
      NamedFiles(args[..n], alike)
        + if args[n].Named? && !Taken(args[..n], alike, args[n].name) then [args[n].name] else []
  }

  /** What the trees hold comes before what is named. */
  ghost predicate TreesFirst(files: seq<string>, args: seq<Argument>, alike: Alike) {
    var n := |files| - |NamedFiles(args, alike)|;
    n >= 0 && files[n..] == NamedFiles(args, alike) && forall p :: p in files[..n] <==> InTree(args, p)
  }

  /** _multipleToStruct: what it lists, and in which order. */
  method MultipleToStruct(args: seq<Argument>, alike: Alike) returns (s: Struct)
    requires forall arg <- args :: arg.Proper()
    ensures forall p :: p in s.dirs <==> ListedIn(args, IsDirectory, p)
    ensures forall p :: p in s.files <==> FileListed(args, alike, p)
    ensures TreesFirst(s.files, args, alike)
    ensures |args| == 1 ==> NoDuplicates(s.dirs) && NoDuplicates(s.files)
    ensures AllFiles(args) && Reflexive(alike) ==> NoDuplicates(s.files)
  {
    s := Struct([], []);
    hide ListedIn, FileListed, NoDuplicates, AllFiles, Reflexive, TreesFirst;
    NothingListed(alike);
    for i := 0 to |args|
      invariant Listing(s, args[..i], alike)
    {
      assert args[..i + 1] == args[..i] + [args[i]];
      s := ListArgument(s, args[i], alike, args[..i]);
    }
    assert args[..|args|] == args;
  }

  /** s is what the arguments so far have listed. */
  ghost predicate Listing(s: Struct, args: seq<Argument>, alike: Alike) {
    && (forall p :: p in s.dirs <==> ListedIn(args, IsDirectory, p))
    && (forall p :: p in s.files <==> FileListed(args, alike, p))
    && TreesFirst(s.files, args, alike)
    && (args == [] ==> s == Struct([], []))
    && (|args| == 1 ==> NoDuplicates(s.dirs) && NoDuplicates(s.files))
    && (AllFiles(args) && Reflexive(alike) ==> NoDuplicates(s.files))
  }

  lemma NothingListed(alike: Alike)
    ensures Listing(Struct([], []), [], alike)
  {
    hide ListedBy, Taken;
  }

  /** One turn of the loop of _multipleToStruct. */
  method ListArgument(s: Struct, arg: Argument, alike: Alike, ghost before: seq<Argument>) returns (s': Struct)
    requires arg.Proper() && Listing(s, before, alike)
    ensures Listing(s', before + [arg], alike)
  {
    ListedNext(before, arg);
    FileListedNext(before, alike, arg);
    AllFilesNext(before, arg);
    hide ListedIn, FileListed, AllFiles, WellFormed, TreesFirst;
    s' := s;
    if arg.Tree? {
      var tmp := DirToStruct(arg.root, arg.realPath, 0, 0);
      TreesFirstNext(s.files, tmp.files, before, alike, arg);
      hide NoDuplicates, Contains;
      s' := Struct(tmp.dirs + s.dirs, tmp.files + s.files);
      assert before == [] ==> s' == tmp;
    } else {
      TreesFirstNext(s.files, [], before, alike, arg);
      if !(exists q <- s.files :: alike(arg.name, q)) {
        NoDuplicatesSum(s.files, [arg.name]);
        s' := s.(files := s.files + [arg.name]);
      }
    }
  }

  lemma InTreeNext(args: seq<Argument>, arg: Argument)
    ensures forall p :: InTree(args + [arg], p) <==> InTree(args, p) || (arg.Tree? && ListedBy(arg, IsFile, p))
  {
    forall p ensures InTree(args + [arg], p) <==> InTree(args, p) || (arg.Tree? && ListedBy(arg, IsFile, p)) {
      if InTree(args, p) {
        var i :| 0 <= i < |args| && args[i].Tree? && ListedBy(args[i], IsFile, p);
        assert (args + [arg])[i] == args[i];
      }
      assert (args + [arg])[|args|] == arg;
    }
  }

  lemma TreesFirstNext(files: seq<string>, more: seq<string>, args: seq<Argument>, alike: Alike, arg: Argument)
    requires TreesFirst(files, args, alike)
    requires arg.Tree? ==> forall p :: p in more <==> ListedBy(arg, IsFile, p)
    ensures arg.Tree? ==> TreesFirst(more + files, args + [arg], alike)
    ensures arg.Named? ==>
      TreesFirst(if Taken(args, alike, arg.name) then files else files + [arg.name], args + [arg], alike)
  {
    InTreeNext(args, arg);
    NamedNext(args, alike, arg);
    hide InTree, Taken, ListedBy, NamedFiles;
    var n := |files| - |NamedFiles(args, alike)|;
    var added := if arg.Named? && !Taken(args, alike, arg.name) then [arg.name] else [];
    if arg.Tree? {
      Around(more, files[..n], files[n..], []);
      assert files == files[..n] + files[n..] && more + files + [] == more + files;
    } else {
      Around([], files[..n], files[n..], added);
      assert files == files[..n] + files[n..] && [] + files + added == files + added;
    }
  }

  lemma Around<T>(more: seq<T>, a: seq<T>, b: seq<T>, added: seq<T>)
    ensures var s := more + (a + b) + added;
      && s[..|more| + |a|] == more + a && s[|more| + |a|..] == b + added
  {
  }

  lemma NamedNext(args: seq<Argument>, alike: Alike, arg: Argument)
    ensures NamedFiles(args + [arg], alike)
      == NamedFiles(args, alike) + if arg.Named? && !Taken(args, alike, arg.name) then [arg.name] else []
  {
    assert (args + [arg])[..|args|] == args;
  }

  ghost predicate AllFiles(args: seq<Argument>) {
    forall arg <- args :: arg.Named?
  }

  ghost predicate Reflexive(alike: Alike) {
    forall p :: alike(p, p)
  }

  lemma AllFilesNext(args: seq<Argument>, arg: Argument)
    ensures AllFiles(args + [arg]) <==> AllFiles(args) && arg.Named?
  {
    assert arg in args + [arg];
    assert forall a <- args :: a in args + [arg];
  }

  lemma FileListedNext(args: seq<Argument>, alike: Alike, arg: Argument)
    ensures forall p :: FileListed(args + [arg], alike, p) <==>
      FileListed(args, alike, p) || (ListedBy(arg, IsFile, p) && (arg.Tree? || !Taken(args, alike, p)))
  {
    assert (args + [arg])[..|args|] == args;
  }

  /** p is in the tree of a directory argument. */
  ghost predicate InTree(args: seq<Argument>, p: string) {
    exists i :: 0 <= i < |args| && args[i].Tree? && ListedBy(args[i], IsFile, p)
  }

  /** Argument i is a file that no argument before it names and no directory argument holds. */
  ghost predicate OnOwn(args: seq<Argument>, i: int) {
    && 0 <= i < |args| && args[i].Named? && !InTree(args, args[i].name)
    && forall j :: 0 <= j < i && args[j].Named? ==> args[j].name != args[i].name
  }

  /** A file is listed that a directory argument holds, and otherwise just when nothing
      alike is listed as it is first named. */
  lemma {:induction false} FirstDecides(args: seq<Argument>, alike: Alike, i: int)
    requires OnOwn(args, i)
    ensures FileListed(args, alike, args[i].name) <==> !Taken(args[..i], alike, args[i].name)
    decreases |args|
  {
    var n, p := |args| - 1, args[i].name;
    if i == n {
      NotBefore(args[..n], alike, p);
    } else {
      var rest := args[..n];
      assert rest[..i] == args[..i] && OnOwn(rest, i);
      FirstDecides(rest, alike, i);
      if Taken(args[..i], alike, p) {
        var q :| FileListed(args[..i], alike, q) && alike(p, q);
        ListedStays(rest, alike, i, q);
      }
    }
  }

  lemma {:induction false} NotBefore(args: seq<Argument>, alike: Alike, p: string)
    requires !ListedIn(args, IsFile, p)
    ensures !FileListed(args, alike, p)
  {
    if args != [] {
      var n := |args| - 1;
      NotBefore(args[..n], alike, p);
    }
  }

  lemma {:induction false} ListedStays(args: seq<Argument>, alike: Alike, i: nat, q: string)
    requires i <= |args| && FileListed(args[..i], alike, q)
    ensures FileListed(args, alike, q)
  {
    if i == |args| {
      assert args[..i] == args;
    } else {
      var n := |args| - 1;
      assert args[..n][..i] == args[..i];
      ListedStays(args[..n], alike, i, q);
    }
  }

  lemma {:induction false} TreeListedAlways(args: seq<Argument>, alike: Alike, p: string)
    requires InTree(args, p)
    ensures FileListed(args, alike, p)
  {
    var i :| 0 <= i < |args| && args[i].Tree? && ListedBy(args[i], IsFile, p);
    assert args[..i + 1][..i] == args[..i];
    ListedStays(args, alike, i + 1, p);
  }

  lemma FirstNamed(args: seq<Argument>, p: string, k: nat) returns (i: int)
    requires k < |args| && args[k].Named? && args[k].name == p && !InTree(args, p)
    ensures OnOwn(args, i) && args[i].name == p
  {
    if j :| 0 <= j < k && args[j].Named? && args[j].name == p {
      i := FirstNamed(args, p, j);
    } else {
      i := k;
    }
  }

  /** A file named is listed unless, where it is first named, something alike is. */
  lemma ListedUnlessTaken(args: seq<Argument>, alike: Alike, p: string)
    ensures FileListed(args, alike, p) ==> ListedIn(args, IsFile, p)
    ensures ListedIn(args, IsFile, p) && !FileListed(args, alike, p) <==>
      exists i :: OnOwn(args, i) && args[i].name == p && Taken(args[..i], alike, p)
  {
    assert forall i :: OnOwn(args, i) ==> ListedBy(args[i], IsFile, args[i].name);
    if !ListedIn(args, IsFile, p) {
      NotBefore(args, alike, p);
    } else if InTree(args, p) {
      TreeListedAlways(args, alike, p);
    } else {
      var k :| 0 <= k < |args| && ListedBy(args[k], IsFile, p);
      var i := FirstNamed(args, p, k);
      FirstDecides(args, alike, i);
      forall j | OnOwn(args, j) && args[j].name == p ensures j == i {
      }
    }
  }

  /** The listing is exact just when no file argument, as it is first named, is alike to a
      file already listed, other than one whose path a directory argument holds anyway. */
  lemma ListingExactIff(args: seq<Argument>, alike: Alike)
    ensures (forall p :: FileListed(args, alike, p) <==> ListedIn(args, IsFile, p))
      <==> (forall i :: OnOwn(args, i) ==> !Taken(args[..i], alike, args[i].name))
  {
    forall p ensures FileListed(args, alike, p) ==> ListedIn(args, IsFile, p) {
      ListedUnlessTaken(args, alike, p);
    }
    if i :| OnOwn(args, i) && Taken(args[..i], alike, args[i].name) {
      ListedUnlessTaken(args, alike, args[i].name);
    } else {
      forall p | ListedIn(args, IsFile, p) ensures FileListed(args, alike, p) {
        ListedUnlessTaken(args, alike, p);
      }
    }
  }

  lemma ListedBeforeOwn(args: seq<Argument>, alike: Alike, i: int)
    requires OnOwn(args, i)
    ensures forall q :: FileListed(args[..i], alike, q) ==> ListedIn(args[..i], IsFile, q) && q != args[i].name
  {
    forall q | FileListed(args[..i], alike, q) ensures ListedIn(args[..i], IsFile, q) {
      ListedUnlessTaken(args[..i], alike, q);
    }
    assert !ListedIn(args[..i], IsFile, args[i].name);
  }

  /** In particular when no file argument is alike to a different file named before it. */
  lemma ListingExactIfApart(args: seq<Argument>, alike: Alike)
    requires forall i, q :: 0 <= i < |args| && args[i].Named? && ListedIn(args[..i], IsFile, q) && alike(args[i].name, q) ==>
      q == args[i].name
    ensures forall p :: FileListed(args, alike, p) <==> ListedIn(args, IsFile, p)
  {
    forall i | OnOwn(args, i) ensures !Taken(args[..i], alike, args[i].name) {
      ListedBeforeOwn(args, alike, i);
    }
    ListingExactIff(args, alike);
  }

  lemma ListedNext(args: seq<Argument>, arg: Argument)
    ensures forall kind, p :: ListedIn(args + [arg], kind, p) <==> ListedIn(args, kind, p) || ListedBy(arg, kind, p)
  {
    forall kind, p ensures ListedIn(args + [arg], kind, p) <==> ListedIn(args, kind, p) || ListedBy(arg, kind, p) {
      if ListedIn(args, kind, p) {
        var i :| 0 <= i < |args| && ListedBy(args[i], kind, p);
        assert ListedBy((args + [arg])[i], kind, p);
      }
      if ListedBy(arg, kind, p) {
        assert ListedBy((args + [arg])[|args|], kind, p);
      }
    }
  }

  // ------------------------------------------------------------------ the order of paths

  /** Strings in the order of their characters. */
  predicate Less(a: string, b: string) {
    if b == [] then false
    else if a == [] then true
    else if a[0] != b[0] then a[0] < b[0]
    else Less(a[1..], b[1..])
  }

  lemma {:induction false} PrefixLess(a: string, b: string)
    requires a < b
    ensures Less(a, b)
  {
    if a != [] {
      PrefixLess(a[1..], b[1..]);
    }
  }

  /** It is the order of a dictionary. */
  lemma {:induction false} LessIs(a: string, b: string)
    ensures Less(a, b) <==> a < b || exists k :: 0 <= k < |a| && k < |b| && a[..k] == b[..k] && a[k] < b[k]
  {
    if a != [] && b != [] && a[0] == b[0] {
      var c, d := a[1..], b[1..];
      LessIs(c, d);
      assert a == [a[0]] + c && b == [b[0]] + d;
      if k :| 0 <= k < |c| && k < |d| && c[..k] == d[..k] && c[k] < d[k] {
        assert a[..k + 1] == [a[0]] + c[..k] && b[..k + 1] == [b[0]] + d[..k];
      }
      if k :| 0 <= k < |a| && k < |b| && a[..k] == b[..k] && a[k] < b[k] {
        assert k > 0 && c[..k - 1] == a[..k][1..] && d[..k - 1] == b[..k][1..];
      }
    } else if a != [] && b != [] {
      assert a[..0] == b[..0];
      forall k | 0 < k < |a| && k < |b| ensures a[..k] != b[..k] {
        assert a[..k][0] == a[0] && b[..k][0] == b[0];
      }
    }
  }

  lemma {:induction false} LessTransitive(a: string, b: string, c: string)
    requires !Less(a, b) && !Less(b, c)
    ensures !Less(a, c)
  {
    if a != [] && b != [] && c != [] && a[0] == b[0] == c[0] {
      LessTransitive(a[1..], b[1..], c[1..]);
    }
  }

  lemma {:induction false} LessAsymmetric(a: string, b: string)
    ensures !(Less(a, b) && Less(b, a))
  {
    if a != [] && b != [] {
      LessAsymmetric(a[1..], b[1..]);
    }
  }

  predicate Descending(s: seq<string>) {
    forall i, j :: 0 <= i < j < |s| ==> !Less(s[i], s[j])
  }

  function Insert(p: string, s: seq<string>): (r: seq<string>)
    ensures multiset(r) == multiset(s)[p := multiset(s)[p] + 1]
  {
    if s == [] || !Less(p, s[0]) then [p] + s
    else
      assert s == [s[0]] + s[1..];
      [s[0]] + Insert(p, s[1..])
  }

  /** rsort: the paths in descending order. */
  function RSort(s: seq<string>): (r: seq<string>)
    ensures multiset(r) == multiset(s)
  {
    if s == [] then []
    else
      assert s == [s[0]] + s[1..];
      Insert(s[0], RSort(s[1..]))
  }

  lemma {:induction false} InsertDescending(p: string, s: seq<string>)
    requires Descending(s)
    ensures Descending(Insert(p, s))
  {
    var r := Insert(p, s);
    if s == [] {
    } else if !Less(p, s[0]) {
      forall j | 0 < j < |s| ensures !Less(p, s[j]) {
        LessTransitive(p, s[0], s[j]);
      }
    } else {
      InsertDescending(p, s[1..]);
      LessAsymmetric(p, s[0]);
      forall j | 0 < j < |r| ensures !Less(s[0], r[j]) {
        assert r[j] in multiset(Insert(p, s[1..]));
        assert r[j] == p || r[j] in multiset(s[1..]);
      }
    }
  }

  lemma {:induction false} RSortDescending(s: seq<string>)
    ensures Descending(RSort(s))
  {
    if s != [] {
      RSortDescending(s[1..]);
      InsertDescending(s[0], RSort(s[1..]));
    }
  }

  lemma {:induction false} NoDuplicatesCounts(s: seq<string>)
    ensures NoDuplicates(s) <==> forall p :: multiset(s)[p] <= 1
  {
    if s != [] {
      var n := |s| - 1;
      NoDuplicatesCounts(s[..n]);
      NoDuplicatesSum(s[..n], [s[n]]);
      assert s == s[..n] + [s[n]];
      assert multiset(s) == multiset(s[..n]) + multiset{s[n]};
      assert forall p :: multiset(s)[p] == multiset(s[..n])[p] + if p == s[n] then 1 else 0;
      assert s[n] in s[..n] <==> s[n] in multiset(s[..n]);
      if forall p :: multiset(s)[p] <= 1 {
        forall p ensures multiset(s[..n])[p] <= 1 {
          assert multiset(s)[p] <= 1;
        }
        assert multiset(s)[s[n]] <= 1;
      }
    }
  }

  lemma SortedDistinct(s: seq<string>)
    ensures NoDuplicates(RSort(s)) <==> NoDuplicates(s)
    ensures forall p :: p in RSort(s) <==> p in s
  {
    NoDuplicatesCounts(s);
    NoDuplicatesCounts(RSort(s));
    forall p ensures p in RSort(s) <==> p in s {
      assert p in RSort(s) <==> p in multiset(RSort(s));
    }
  }

  // ------------------------------------------------------------------ deletion

  /** Where a name leads: a real path, and the links that it passes on the way. */
  datatype Place = Place(at: string, links: set<string>)

  type Names = string -> Place

  /** Something of that kind is found there. */
  predicate Leads(kinds: map<string, Kind>, place: Place, kind: Kind) {
    place.links <= kinds.Keys && place.at in kinds && kinds[place.at] == kind
  }

  class FileSystem {
    /** Where names lead as long as the links that they pass exist. */
    const names: Names
    /** The files and directories that exist, by their real paths. */
    var kinds: map<string, Kind>

    constructor (names: Names, kinds: map<string, Kind>)
      ensures this.names == names && this.kinds == kinds
    {
      this.names, this.kinds := names, kinds;
    }

    /** unlink: deletes a file. */
    method Unlink(p: string) returns (ok: bool)
      modifies this
      ensures ok <==> Leads(old(kinds), names(p), IsFile)
      ensures kinds == if ok then old(kinds) - {names(p).at} else old(kinds)
    {
      ok := Leads(kinds, names(p), IsFile);
      if ok {
        kinds := kinds - {names(p).at};
      }
    }

    predicate IsEmpty(p: string)
      reads this
    {
      forall q <- kinds :: !Below(p, q)
    }

    /** rmdir: deletes an empty directory. */
    method RmDir(p: string) returns (ok: bool)
      modifies this
      ensures ok <==> Leads(old(kinds), names(p), IsDirectory) && old(IsEmpty(names(p).at))
      ensures kinds == if ok then old(kinds) - {names(p).at} else old(kinds)
    {
      ok := Leads(kinds, names(p), IsDirectory) && IsEmpty(names(p).at);
      if ok {
        kinds := kinds - {names(p).at};
      }
    }

    /** Every name leads to a file as it is listed, to none that was deleted before, and past
        no link that was. */
    method UnlinkAll(files: seq<string>) returns (ret: bool)
      modifies this
      ensures kinds == Left(old(kinds), names, files)
      ensures ret <==> Deletable(old(kinds), names, files)
      ensures ret || Undisturbed(names, files) ==> kinds == old(kinds) - Targets(old(kinds), names, files)
    {
      ret := true;
      for i := 0 to |files|
        invariant kinds == Left(old(kinds), names, files[..i])
        invariant ret <==> Deletable(old(kinds), names, files[..i])
      {
        DeletableNext(old(kinds), names, files[..i], files[i]);
        LeftNext(old(kinds), names, files[..i], files[i]);
        hide Left, Deletable;
        assert files[..i + 1] == files[..i] + [files[i]];
        var ok := Unlink(files[i]);
        if !ok {
          ret := false;
        }
      }
      assert files[..|files|] == files;
      TargetsGone(old(kinds), names, files);
    }

    /** Deletes directories, deepest first: nothing but directories listed is below one. */
    method RmDirAll(dirs: seq<string>) returns (ret: bool)
      requires Descending(dirs) && forall d <- dirs :: d in kinds && kinds[d] == IsDirectory && names(d) == Place(d, {})
      requires forall d <- dirs, q <- kinds :: Below(d, q) ==> q in dirs
      modifies this
      ensures kinds == old(kinds) - Elements(dirs)
      ensures ret <==> NoDuplicates(dirs)
    {
      ret := true;
      for i := 0 to |dirs|
        invariant kinds == old(kinds) - Elements(dirs[..i])
        invariant ret <==> NoDuplicates(dirs[..i])
      {
        Deepest(dirs, i, old(kinds));
        var ok := RmDir(dirs[i]);
        if !ok {
          ret := false;
        }
        assert dirs[..i + 1] == dirs[..i] + [dirs[i]];
        NoDuplicatesSum(dirs[..i], [dirs[i]]);
      }
      assert dirs[..|dirs|] == dirs;
    }

    /** rm -r. It succeeds just when no directory is listed twice and every file name listed
        leads to a file of its own, past no link listed before it. Unless a name listed passes
        a link listed, it deletes what the names listed lead to and nothing else; and that
        is all that was named just when no name of an existing file was left out for being
        alike to one listed before, with none of the names listed leading to the same file. */
    method RemoveRecursively(args: seq<Argument>, alike: Alike) returns (ret: bool, ghost s: Struct)
      requires RealPaths(kinds, names) && forall arg <- args :: arg.Proper() && Holds(kinds, arg)
      modifies this
      ensures forall p :: p in s.files <==> FileListed(args, alike, p)
      ensures forall p :: p in s.dirs <==> ListedIn(args, IsDirectory, p)
      ensures TreesFirst(s.files, args, alike)
      ensures kinds == Left(old(kinds), names, s.files) - Elements(s.dirs)
      ensures ret <==> Deletable(old(kinds), names, s.files) && NoDuplicates(s.dirs)
      ensures |args| == 1 ==> NoDuplicates(s.files) && NoDuplicates(s.dirs)
      ensures AllFiles(args) && Reflexive(alike) ==> NoDuplicates(s.files)
      ensures ret || Undisturbed(names, s.files) ==>
        && kinds == Without(old(kinds), names, args, alike)
        && (AllGone(old(kinds), kinds, names, args) <==> forall i :: OnOwn(args, i) && Taken(args[..i], alike, args[i].name) ==>
              Covered(old(kinds), names, args, alike, args[i].name))
    {
      var lists := MultipleToStruct(args, alike);
      s := lists;
      AllHold(args, alike, kinds);
      DeletionExactIff(args, alike, kinds, names);
      hide *;
      var files := UnlinkAll(lists.files);
      var sorted := RSort(lists.dirs);
      RSortDescending(s.dirs);
      SortedDistinct(s.dirs);
      Remaining(old(kinds), names, args, alike, s, sorted);
      var dirs := RmDirAll(sorted);
      ret := files && dirs;
    }

    /** rm -r of one directory: leaves the file system without all that is below it, and
        succeeds. */
    method RemoveTree(arg: Argument, alike: Alike) returns (ret: bool)
      requires arg.Tree? && arg.Proper() && RealPaths(kinds, names) && Holds(kinds, arg)
      modifies this
      ensures ret
      ensures kinds == map p | p in old(kinds) && !(p == arg.realPath || arg.realPath + "/" <= p) :: old(kinds)[p]
    {
      TreeListed(kinds, names, arg, alike);
      BelowIs(arg.realPath);
      hide *;
      ghost var s;
      ret, s := RemoveRecursively([arg], alike);
      TreeDeletable(old(kinds), names, arg, alike, s.files);
    }
  }

  /** A real path leads to itself. */
  ghost predicate RealPaths(kinds: map<string, Kind>, names: Names) {
    forall p <- kinds :: names(p) == Place(p, {})
  }

  function Elements(s: seq<string>): set<string> {
    set p | p in s
  }

  /** What is left as one name after the other is unlinked. */
  ghost function Left(kinds: map<string, Kind>, names: Names, files: seq<string>): map<string, Kind> {
    if files == [] then kinds
    else
      var n := |files| - 1;
      var left := Left(kinds, names, files[..n]);
      if Leads(left, names(files[n]), IsFile) then left - {names(files[n]).at} else left
  }

  lemma LeftNext(kinds: map<string, Kind>, names: Names, files: seq<string>, f: string)
    ensures var left := Left(kinds, names, files);
      Left(kinds, names, files + [f]) == if Leads(left, names(f), IsFile) then left - {names(f).at} else left
  {
    assert (files + [f])[..|files|] == files;
  }

  /** The name at index i leads to file q, past links none of which was unlinked before. */
  ghost predicate Unlinks(kinds: map<string, Kind>, names: Names, files: seq<string>, i: nat, q: string)
    requires i < |files|
  {
    && names(files[i]).at == q && Leads(kinds, names(files[i]), IsFile)
    && names(files[i]).links <= Left(kinds, names, files[..i]).Keys
  }

  ghost predicate Unlinked(kinds: map<string, Kind>, names: Names, files: seq<string>, q: string) {
    exists i: nat :: i < |files| && Unlinks(kinds, names, files, i, q)
  }

  lemma UnlinkedNext(kinds: map<string, Kind>, names: Names, files: seq<string>, q: string)
    requires files != []
    ensures var n := |files| - 1;
      Unlinked(kinds, names, files, q) <==> Unlinked(kinds, names, files[..n], q) || Unlinks(kinds, names, files, n, q)
  {
    var n := |files| - 1;
    hide Left;
    forall i: nat | i < n ensures Unlinks(kinds, names, files, i, q) <==> Unlinks(kinds, names, files[..n], i, q) {
      assert files[..n][..i] == files[..i];
    }
  }

  /** Exactly the files go that some name leads to past links still there at its turn. */
  lemma {:induction false} LeftIs(kinds: map<string, Kind>, names: Names, files: seq<string>)
    ensures var left := Left(kinds, names, files);
      && (forall q :: q in left <==> q in kinds && !Unlinked(kinds, names, files, q))
      && (forall q <- left :: left[q] == kinds[q])
  {
    if files != [] {
      LeftIs(kinds, names, files[..|files| - 1]);
      forall q ensures q in Left(kinds, names, files) <==> q in kinds && !Unlinked(kinds, names, files, q) {
        UnlinkedNext(kinds, names, files, q);
        hide Unlinked;
      }
    }
  }

  /** Name f leads to a file of its own, and to no link that g passes. */
  predicate Apart(names: Names, f: string, g: string) {
    names(f).at != names(g).at && names(f).at !in names(g).links
  }

  ghost predicate Deletable(kinds: map<string, Kind>, names: Names, files: seq<string>) {
    && (forall f <- files :: Leads(kinds, names(f), IsFile))
    && (forall i, j :: 0 <= i < j < |files| ==> Apart(names, files[i], files[j]))
  }

  /** No name passes a link that one leads to. */
  ghost predicate Undisturbed(names: Names, files: seq<string>) {
    forall f <- files, g <- files :: names(f).at !in names(g).links
  }

  /** The files that the names lead to. */
  ghost function Targets(kinds: map<string, Kind>, names: Names, files: seq<string>): set<string> {
    set f | f in files && Leads(kinds, names(f), IsFile) :: names(f).at
  }

  lemma AllUnlink(kinds: map<string, Kind>, names: Names, files: seq<string>, i: nat)
    requires i < |files| && Leads(kinds, names(files[i]), IsFile)
    requires Deletable(kinds, names, files) || Undisturbed(names, files)
    ensures Unlinks(kinds, names, files, i, names(files[i]).at)
  {
    LeftIs(kinds, names, files[..i]);
    hide Left;
    forall l | l in names(files[i]).links ensures !Unlinked(kinds, names, files[..i], l) {
      forall j: nat | j < i ensures !Unlinks(kinds, names, files[..i], j, l) {
        assert files[..i][j] == files[j];
        assert Deletable(kinds, names, files) ==> Apart(names, files[j], files[i]);
      }
    }
  }

  lemma TargetsGone(kinds: map<string, Kind>, names: Names, files: seq<string>)
    ensures Deletable(kinds, names, files) || Undisturbed(names, files) ==>
      Left(kinds, names, files) == kinds - Targets(kinds, names, files)
  {
    LeftIs(kinds, names, files);
    hide Left, Deletable, Undisturbed;
    if Deletable(kinds, names, files) || Undisturbed(names, files) {
      forall q ensures Unlinked(kinds, names, files, q) <==> q in Targets(kinds, names, files) {
        if q in Targets(kinds, names, files) {
          var f :| f in files && Leads(kinds, names(f), IsFile) && names(f).at == q;
          var i: nat :| i < |files| && files[i] == f;
          AllUnlink(kinds, names, files, i);
        }
      }
      hide Unlinked, Targets;
    }
  }

  lemma DeletableNext(kinds: map<string, Kind>, names: Names, files: seq<string>, f: string)
    ensures Deletable(kinds, names, files + [f]) <==>
      Deletable(kinds, names, files) && Leads(Left(kinds, names, files), names(f), IsFile)
  {
    TargetsGone(kinds, names, files);
    LeftIs(kinds, names, files);
    hide Left, Undisturbed, Unlinked;
    var more := files + [f];
    if Deletable(kinds, names, more) {
      forall i, j | 0 <= i < j < |files| ensures Apart(names, files[i], files[j]) {
        assert Apart(names, more[i], more[j]);
      }
      forall g | g in files ensures Apart(names, g, f) {
        var i :| 0 <= i < |files| && files[i] == g;
        assert Apart(names, more[i], more[|files|]);
      }
      assert f in more;
      assert forall g <- files :: g in more;
    }
    if Deletable(kinds, names, files) && Leads(Left(kinds, names, files), names(f), IsFile) {
      forall g | g in files ensures Apart(names, g, f) {
        assert names(g).at in Targets(kinds, names, files);
      }
    }
  }

  /** All that is in the directory dirs[i] comes before it. */
  lemma Deepest(dirs: seq<string>, i: nat, kinds: map<string, Kind>)
    requires Descending(dirs) && i < |dirs|
    requires forall d <- dirs, q <- kinds :: Below(d, q) ==> q in dirs
    ensures forall q <- kinds :: Below(dirs[i], q) ==> q in dirs[..i]
  {
    forall q | q in kinds && Below(dirs[i], q) ensures q in dirs[..i] {
      PrefixLess(dirs[i], q);
      var j :| 0 <= j < |dirs| && dirs[j] == q;
      assert j < i;
    }
  }

  /** A tree is what the file system has in that directory, all of which can be read. It is
      not the root, which cannot be deleted. */
  ghost predicate Holds(kinds: map<string, Kind>, arg: Argument) {
    arg.Tree? ==>
      && arg.realPath != ROOT
      && forall p :: Under(arg.realPath, p) ==>
        && (p in kinds <==> ListedBy(arg, IsFile, p) || ListedBy(arg, IsDirectory, p))
        && (p in kinds ==> ListedBy(arg, kinds[p], p))
  }

  lemma DirectoryHolds(kinds: map<string, Kind>, arg: Argument, d: string)
    requires arg.Proper() && Holds(kinds, arg) && ListedBy(arg, IsDirectory, d)
    ensures d in kinds && kinds[d] == IsDirectory
    ensures forall q <- kinds :: Below(d, q) ==> ListedBy(arg, kinds[q], q)
  {
    ContainsUnder(arg.root, arg.realPath, 0, 0, IsDirectory, d);
    OneKind(arg.root, arg.realPath, d);
    forall q | q in kinds && Below(d, q) ensures ListedBy(arg, kinds[q], q) {
      BelowTransitive(arg.realPath, d, q);
    }
  }

  lemma BelowTransitive(path: string, d: string, q: string)
    requires Under(path, d) && Below(d, q)
    ensures Below(path, q)
  {
  }

  /** A listed name leads to file q. */
  ghost predicate Hit(kinds: map<string, Kind>, names: Names, args: seq<Argument>, alike: Alike, q: string) {
    exists f :: FileListed(args, alike, f) && Leads(kinds, names(f), IsFile) && names(f).at == q
  }

  /** If name p leads to a file, so does a listed one. */
  ghost predicate Covered(kinds: map<string, Kind>, names: Names, args: seq<Argument>, alike: Alike, p: string) {
    Leads(kinds, names(p), IsFile) ==> Hit(kinds, names, args, alike, names(p).at)
  }

  /** kinds without what is listed for the arguments. */
  ghost function Without(kinds: map<string, Kind>, names: Names, args: seq<Argument>, alike: Alike): map<string, Kind> {
    map q | q in kinds && !Hit(kinds, names, args, alike, q) && !ListedIn(args, IsDirectory, q) :: kinds[q]
  }

  /** All that the arguments named is gone. */
  ghost predicate AllGone(kinds: map<string, Kind>, left: map<string, Kind>, names: Names, args: seq<Argument>) {
    && (forall p :: ListedIn(args, IsFile, p) && Leads(kinds, names(p), IsFile) ==> names(p).at !in left)
    && (forall d :: ListedIn(args, IsDirectory, d) ==> d !in left)
  }

  /** Listed for a directory is what the file system has below it. */
  lemma TreeListed(kinds: map<string, Kind>, names: Names, arg: Argument, alike: Alike)
    requires arg.Tree? && arg.Proper() && RealPaths(kinds, names) && Holds(kinds, arg)
    ensures forall p :: FileListed([arg], alike, p) ==> p in kinds && kinds[p] == IsFile && names(p) == Place(p, {})
    ensures Without(kinds, names, [arg], alike) == map p | p in kinds && !Under(arg.realPath, p) :: kinds[p]
    ensures forall a <- [arg] :: a.Proper() && Holds(kinds, a)
  {
    forall kind, p ensures ListedIn([arg], kind, p) <==> ListedBy(arg, kind, p) {
      assert ListedBy(arg, kind, p) ==> ListedBy([arg][0], kind, p);
    }
    forall p ensures FileListed([arg], alike, p) <==> ListedBy(arg, IsFile, p) {
      ListedUnlessTaken([arg], alike, p);
      assert [arg][0].Tree?;
      if ListedBy(arg, IsFile, p) {
        assert ListedBy([arg][0], IsFile, p);
        TreeListedAlways([arg], alike, p);
      }
    }
    forall kind, p | ListedBy(arg, kind, p) ensures Under(arg.realPath, p) {
      ContainsUnder(arg.root, arg.realPath, 0, 0, kind, p);
    }
    forall p | ListedBy(arg, IsFile, p) ensures p in kinds && kinds[p] == IsFile {
      OneKind(arg.root, arg.realPath, p);
    }
    forall q | q in kinds ensures Hit(kinds, names, [arg], alike, q) <==> ListedBy(arg, IsFile, q) {
      assert names(q) == Place(q, {});
    }
  }

  /** Without repetitions, names that are real paths can all be deleted. */
  lemma TreeDeletable(kinds: map<string, Kind>, names: Names, arg: Argument, alike: Alike, files: seq<string>)
    requires forall p <- files :: p in kinds && kinds[p] == IsFile && names(p) == Place(p, {})
    requires NoDuplicates(files)
    ensures Deletable(kinds, names, files)
  {
    forall i, j | 0 <= i < j < |files| ensures Apart(names, files[i], files[j]) {
      assert names(files[i]) == Place(files[i], {}) && names(files[j]) == Place(files[j], {});
    }
  }

  lemma Remaining(kinds: map<string, Kind>, names: Names, args: seq<Argument>, alike: Alike, s: Struct, sorted: seq<string>)
    requires RealPaths(kinds, names)
    requires forall p :: p in s.files <==> FileListed(args, alike, p)
    requires forall p :: p in s.dirs <==> ListedIn(args, IsDirectory, p)
    requires forall p :: p in sorted <==> p in s.dirs
    requires forall p :: ListedIn(args, IsDirectory, p) ==> p in kinds && kinds[p] == IsDirectory
    requires forall d, q :: ListedIn(args, IsDirectory, d) && q in kinds && Below(d, q) ==>
      if kinds[q] == IsFile then FileListed(args, alike, q) else ListedIn(args, IsDirectory, q)
    ensures var left := Left(kinds, names, s.files);
      && (forall d <- sorted :: d in left && left[d] == IsDirectory && names(d) == Place(d, {}))
      && (forall d <- sorted, q <- left :: Below(d, q) ==> q in sorted)
    ensures Elements(sorted) == Elements(s.dirs)
    ensures kinds - Targets(kinds, names, s.files) - Elements(sorted) == Without(kinds, names, args, alike)
  {
    LeftIs(kinds, names, s.files);
    hide FileListed, ListedIn, Left, Below;
    forall q | q in kinds && kinds[q] == IsFile && q in s.files ensures q !in Left(kinds, names, s.files) {
      var i: nat :| i < |s.files| && s.files[i] == q;
      assert Unlinks(kinds, names, s.files, i, q);
    }
  }

  lemma AllHold(args: seq<Argument>, alike: Alike, kinds: map<string, Kind>)
    requires forall arg <- args :: arg.Proper() && Holds(kinds, arg)
    ensures forall p :: ListedIn(args, IsDirectory, p) ==> p in kinds && kinds[p] == IsDirectory
    ensures forall d, q :: ListedIn(args, IsDirectory, d) && q in kinds && Below(d, q) ==>
      if kinds[q] == IsFile then FileListed(args, alike, q) else ListedIn(args, IsDirectory, q)
  {
    forall d | ListedIn(args, IsDirectory, d)
      ensures d in kinds && kinds[d] == IsDirectory
      ensures forall q <- kinds :: Below(d, q) ==>
        if kinds[q] == IsFile then FileListed(args, alike, q) else ListedIn(args, IsDirectory, q)
    {
      var i :| 0 <= i < |args| && ListedBy(args[i], IsDirectory, d);
      DirectoryHolds(kinds, args[i], d);
      forall q | q in kinds && Below(d, q)
        ensures if kinds[q] == IsFile then FileListed(args, alike, q) else ListedIn(args, IsDirectory, q)
      {
        assert ListedBy(args[i], kinds[q], q);
        if kinds[q] == IsFile {
          TreeListedAlways(args, alike, q);
        }
      }
    }
  }

  /** All that is named is gone just when no name was left out for a file that no listed name
      leads to. */
  lemma DeletionExactIff(args: seq<Argument>, alike: Alike, kinds: map<string, Kind>, names: Names)
    requires forall p :: ListedIn(args, IsDirectory, p) ==> p in kinds && kinds[p] == IsDirectory
    ensures AllGone(kinds, Without(kinds, names, args, alike), names, args) <==>
      forall i :: OnOwn(args, i) && Taken(args[..i], alike, args[i].name) ==> Covered(kinds, names, args, alike, args[i].name)
  {
    if AllGone(kinds, Without(kinds, names, args, alike), names, args) {
      forall i | OnOwn(args, i) && Taken(args[..i], alike, args[i].name)
        ensures Covered(kinds, names, args, alike, args[i].name)
      {
        ListedUnlessTaken(args, alike, args[i].name);
      }
    } else {
      hide FileListed, OnOwn, Taken;
      var p :| ListedIn(args, IsFile, p) && Leads(kinds, names(p), IsFile) && !Hit(kinds, names, args, alike, names(p).at);
      ListedUnlessTaken(args, alike, p);
      assert !FileListed(args, alike, p);
    }
  }

  /** Texts of one integer are alike. */
  predicate SameNumber(p: string, q: string) {
    p == q || (IsInteger(p) && IsInteger(q) && BodyInteger(Body(p)) == BodyInteger(Body(q)))
  }

  predicate IsInteger(p: string) {
    IsHexBody(Body(p)) || IsDecimalInteger(Body(p))
  }

  /** rm -r of two files: the second is not deleted, and it says that it succeeded. */
  method RemoveAlike() returns (ret: bool, fs: FileSystem)
    ensures ret && fs.kinds == map["01" := IsFile]
  {
    fs := new FileSystem(p => Place(p, {}), map["1" := IsFile, "01" := IsFile]);
    var args := [Named("1"), Named("01")];
    OneAndOne(args, fs.kinds, fs.names);
    ghost var before := fs.kinds;
    hide *;
    ghost var s;
    ret, s := fs.RemoveRecursively(args, SameNumber);
    OnlyNamed(args, SameNumber, s.files);
    EmptyIfNone(s.dirs);
    OneDeleted(before, fs.names);
  }

  lemma EmptyIfNone(s: seq<string>)
    ensures s == [] <==> forall p :: p !in s
  {
    if s != [] {
      assert s[0] in s;
    }
  }

  lemma OneAndOne(args: seq<Argument>, kinds: map<string, Kind>, names: Names)
    requires args == [Named("1"), Named("01")] && forall p :: names(p) == Place(p, {})
    ensures RealPaths(kinds, names) && forall arg <- args :: arg.Proper() && Holds(kinds, arg)
    ensures NamedFiles(args, SameNumber) == ["1"] && AllFiles(args)
    ensures forall p :: !ListedIn(args, IsDirectory, p)
  {
    OneIsOne();
    hide SameNumber;
    NamedNext([], SameNumber, args[0]);
    NamedNext([args[0]], SameNumber, args[1]);
    FileListedNext([], SameNumber, args[0]);
    assert [] + [args[0]] == [args[0]] && args == [args[0]] + [args[1]];
    assert FileListed([args[0]], SameNumber, "1");
  }

  lemma OneIsOne()
    ensures SameNumber("01", "1")
  {
    assert Value("1") == 1 && Value("01") == 1;
  }

  lemma OneDeleted(kinds: map<string, Kind>, names: Names)
    requires kinds == map["1" := IsFile, "01" := IsFile] && forall p :: names(p) == Place(p, {})
    ensures Left(kinds, names, ["1"]) - Elements([]) == map["01" := IsFile] && Deletable(kinds, names, ["1"])
    ensures NoDuplicates([])
  {
    assert ["1"][..0] == [];
  }

  /** Without trees, just what is named is listed. */
  lemma OnlyNamed(args: seq<Argument>, alike: Alike, files: seq<string>)
    requires AllFiles(args) && TreesFirst(files, args, alike)
    ensures files == NamedFiles(args, alike)
  {
    EmptyIfNone(files[..|files| - |NamedFiles(args, alike)|]);
    hide NamedFiles;
  }

  /** rm -r of two names of one file deletes it and says that it failed. */
  method RemoveTwice() returns (ret: bool, fs: FileSystem)
    ensures !ret && fs.kinds == map[]
  {
    fs := new FileSystem(p => if p == "./a" || p == "a" then Place("/w/a", {}) else Place(p, {}), map["/w/a" := IsFile]);
    var args := [Named("./a"), Named("a")];
    BothListed(args, (p, q) => p == q, fs.kinds);
    hide *;
    ghost var s;
    ghost var before := fs.kinds;
    ret, s := fs.RemoveRecursively(args, (p, q) => p == q);
    OnlyNamed(args, (p, q) => p == q, s.files);
    EmptyIfNone(s.dirs);
    TwiceDeleted(before, fs.names);
  }

  lemma BothListed(args: seq<Argument>, alike: Alike, kinds: map<string, Kind>)
    requires args == [Named("./a"), Named("a")] && forall p, q :: alike(p, q) <==> p == q
    ensures forall arg <- args :: arg.Proper() && Holds(kinds, arg)
    ensures NamedFiles(args, alike) == ["./a", "a"] && AllFiles(args)
    ensures forall p :: !ListedIn(args, IsDirectory, p)
  {
    NamedNext([], alike, args[0]);
    NamedNext([args[0]], alike, args[1]);
    FileListedNext([], alike, args[0]);
    assert [] + [args[0]] == [args[0]] && args == [args[0]] + [args[1]];
  }

  lemma TwiceDeleted(kinds: map<string, Kind>, names: Names)
    requires kinds == map["/w/a" := IsFile] && names("./a") == names("a") == Place("/w/a", {})
    ensures Left(kinds, names, ["./a", "a"]) == map[] && !Deletable(kinds, names, ["./a", "a"])
  {
    LeftNext(kinds, names, [], "./a");
    LeftNext(kinds, names, ["./a"], "a");
    assert [] + ["./a"] == ["./a"] && ["./a", "a"] == ["./a"] + ["a"];
    assert !Apart(names, ["./a", "a"][0], ["./a", "a"][1]);
  }

  /** In whatever order the arguments are given, a name past a link that a directory argument
      holds makes rm -r fail: what the trees hold is unlinked first. */
  lemma PastLink(args: seq<Argument>, alike: Alike, files: seq<string>, names: Names, kinds: map<string, Kind>)
    requires TreesFirst(files, args, alike)
    ensures forall link, f :: InTree(args, link) && names(link).at == link && f in NamedFiles(args, alike) && link in names(f).links ==>
      !Deletable(kinds, names, files)
  {
    hide InTree, NamedFiles, Deletable;
    forall link, f | InTree(args, link) && names(link).at == link && f in NamedFiles(args, alike) && link in names(f).links
      ensures !Deletable(kinds, names, files)
    {
      var n := |files| - |NamedFiles(args, alike)|;
      Passed(files[..n], files[n..], names, kinds, link, f);
      assert files == files[..n] + files[n..];
    }
  }

  lemma Passed(trees: seq<string>, named: seq<string>, names: Names, kinds: map<string, Kind>, link: string, f: string)
    requires link in trees && f in named && names(link).at in names(f).links
    ensures !Deletable(kinds, names, trees + named)
  {
    var i :| 0 <= i < |trees| && trees[i] == link;
    var k :| 0 <= k < |named| && named[k] == f;
    assert (trees + named)[i] == link && (trees + named)[|trees| + k] == f;
    assert !Apart(names, link, f);
  }

  /** rm -r of a file and of a directory with the link that the name of the file passes: the
      file stays. */
  method RemovePastLink() returns (ret: bool, fs: FileSystem)
    ensures !ret && fs.kinds == map["/w/t" := IsDirectory, "/w/t/f" := IsFile]
  {
    var kinds := map["/w/d" := IsDirectory, "/w/d/l" := IsFile, "/w/t" := IsDirectory, "/w/t/f" := IsFile];
    fs := new FileSystem(p => if p == "d/l/f" then Place("/w/t/f", {"/w/d/l"}) else Place(p, {}), kinds);
    var args := [Named("d/l/f"), Tree("/w/d", Directory(true, [Entry("l", File)]))];
    LinkTree(kinds, args[1]);
    LinkListed(args, (p, q) => p == q);
    hide *;
    ghost var s;
    ret, s := fs.RemoveRecursively(args, (p, q) => p == q);
    PastLink(args, (p, q) => p == q, s.files, fs.names, kinds);
    LinkLeft(args, (p, q) => p == q, s, fs.names, kinds);
  }

  lemma LinkTree(kinds: map<string, Kind>, arg: Argument)
    requires arg == Tree("/w/d", Directory(true, [Entry("l", File)]))
    requires kinds == map["/w/d" := IsDirectory, "/w/d/l" := IsFile, "/w/t" := IsDirectory, "/w/t/f" := IsFile]
    ensures arg.Proper() && Holds(kinds, arg)
    ensures forall p :: ListedBy(arg, IsFile, p) <==> p == "/w/d/l"
    ensures forall p :: ListedBy(arg, IsDirectory, p) <==> p == "/w/d"
  {
    forall p ensures ListedBy(arg, IsFile, p) <==> p == "/w/d/l" {
      OneEntry(arg.root, "/w/d", IsFile, p);
    }
    forall p ensures ListedBy(arg, IsDirectory, p) <==> p == "/w/d" {
      OneEntry(arg.root, "/w/d", IsDirectory, p);
    }
    hide ListedBy, Contains;
    assert ("/w/d" + [SEPARATOR])[3] == 'd' && "/w/t/f"[3] == 't';
  }

  lemma OneEntry(n: Node, path: string, kind: Kind, p: string)
    requires n == Directory(true, [Entry("l", File)]) && path != ROOT
    ensures Contains(n, path, 0, 0, kind, p) <==> p == if kind == IsFile then path + "/l" else path
  {
    ContainsEntries(n, path, 0, 0, kind, p);
    LeafContains(Inside(path, "l"), 1, kind, p);
    hide Contains;
    assert Inside(path, "l") == path + "/l" && n.entries[0] == Entry("l", File);
  }

  lemma LeafContains(path: string, start: nat, kind: Kind, p: string)
    ensures Contains(File, path, start, 0, kind, p) <==> kind == IsFile && p == path
  {
    if kind == IsFile && p == path {
      assert IsAt(p, File, path, [], kind);
    }
  }

  lemma LinkListed(args: seq<Argument>, alike: Alike)
    requires |args| == 2 && args[0] == Named("d/l/f") && args[1].Tree?
    requires forall p :: ListedBy(args[1], IsFile, p) <==> p == "/w/d/l"
    requires forall p :: ListedBy(args[1], IsDirectory, p) <==> p == "/w/d"
    ensures NamedFiles(args, alike) == ["d/l/f"] && forall p :: InTree(args, p) <==> p == "/w/d/l"
    ensures forall p :: ListedIn(args, IsDirectory, p) <==> p == "/w/d"
  {
    NamedNext([], alike, args[0]);
    NamedNext([args[0]], alike, args[1]);
    assert [] + [args[0]] == [args[0]] && args == [args[0]] + [args[1]];
    hide ListedBy;
    assert ListedBy(args[1], IsFile, "/w/d/l") && ListedBy(args[1], IsDirectory, "/w/d");
  }

  lemma LinkLeft(args: seq<Argument>, alike: Alike, s: Struct, names: Names, kinds: map<string, Kind>)
    requires kinds == map["/w/d" := IsDirectory, "/w/d/l" := IsFile, "/w/t" := IsDirectory, "/w/t/f" := IsFile]
    requires forall p :: names(p) == if p == "d/l/f" then Place("/w/t/f", {"/w/d/l"}) else Place(p, {})
    requires TreesFirst(s.files, args, alike) && NamedFiles(args, alike) == ["d/l/f"]
    requires forall p :: InTree(args, p) <==> p == "/w/d/l"
    requires forall p :: p in s.dirs <==> p == "/w/d"
    ensures Left(kinds, names, s.files) - Elements(s.dirs) == map["/w/t" := IsDirectory, "/w/t/f" := IsFile]
  {
    var n := |s.files| - 1;
    var trees := s.files[..n];
    assert s.files == trees + ["d/l/f"] by {
      assert s.files[n..] == ["d/l/f"];
    }
    LeftNext(kinds, names, trees, "d/l/f");
    TargetsGone(kinds, names, trees);
    assert Undisturbed(names, trees);
    hide Left, InTree, NamedFiles;
    assert Targets(kinds, names, trees) == {"/w/d/l"} by {
      assert "/w/d/l" in trees;
    }
  }
}
