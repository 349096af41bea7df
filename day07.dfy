/**
 * Day 7 (src/days/day7.rs): directory sizes recovered from a terminal log.
 *
 * `Terminal` keeps the current directory and, for every directory the log
 * listed something in, its children. A `FilePath` is a cloneable value that
 * is also a hash-map key, so its `&mut self` operations are modelled as
 * functions returning the updated path. Directory sizes are sums over the
 * children of a hash map; the iteration order does not matter, which the
 * sum lemmas below make precise.
 */
module Day07 {
  import opened Wrappers

  type Name = string

  /** A path from the root: `parts` starts with "/". */
  datatype FilePath = FilePath(parts: seq<Name>)
  {
    /** `go_back`: drop the last part, unless only the root is left. */
    function GoBack(): FilePath
    {
      if |parts| > 1 then FilePath(parts[..|parts| - 1]) else this
    }

    /** `go_forward` / `to_forward`: one more part at the end. */
    function GoForward(child: Name): FilePath
    {
      FilePath(parts + [child])
    }
  }

  /** `FilePath::default()`. */
  const Root := FilePath(["/"])

  predicate Rooted(p: FilePath)
  {
    |p.parts| >= 1 && p.parts[0] == "/"
  }

  /** Going back never removes the root, and going forward keeps it. */
  lemma RootIsKept(p: FilePath, child: Name)
    requires Rooted(p)
    ensures Rooted(p.GoBack()) && Rooted(p.GoForward(child))
    ensures p.GoBack() == Root <==> |p.parts| <= 1 || p.parts[..|p.parts| - 1] == ["/"]
  {
  }

  /** Going back undoes going forward. */
  lemma GoBackUndoesGoForward(p: FilePath, child: Name)
    requires |p.parts| >= 1
    ensures p.GoForward(child).GoBack() == p
  {
    assert (p.parts + [child])[..|p.parts|] == p.parts;
  }

  /** One line of the log. */
  datatype Line = CdFwd(dir: Name) | CdBck | CdRoot | Ls | Dir(name: Name) | File(name: Name, size: nat)

  /**
   * A child of a directory. The source stores an empty `Directory` inside a
   * directory entry and never reads it: the children of a sub-directory are
   * found under its own path.
   */
  datatype DirEntry = Subdirectory | File(name: Name, size: nat)

  datatype Directory = Directory(children: map<Name, DirEntry>)

  type Dirs = map<FilePath, Directory>

  /** The state of a terminal: where it is and what it has seen. */
  datatype Session = Session(current: FilePath, visited: Dirs)

  /** `entry(current).or_default().children.insert(name, entry)`. */
  function Insert(s: Session, name: Name, entry: DirEntry): Session
  {
    var children := if s.current in s.visited then s.visited[s.current].children else map[];
    s.(visited := s.visited[s.current := Directory(children[name := entry])])
  }

  /** `run_cmd` on the session value. */
  function Step(s: Session, line: Line): Session
  {
    match line
    case CdFwd(dir) => s.(current := s.current.GoForward(dir))
    case CdBck => s.(current := s.current.GoBack())
    case CdRoot => s.(current := Root)
    case Ls => s
    case Dir(name) => Insert(s, name, Subdirectory)
    case File(name, size) => Insert(s, name, DirEntry.File(name, size))
  }

  /** What each command does to the session, and that nothing else changes. */
  lemma StepEffect(s: Session, line: Line)
    ensures line.CdRoot? ==> Step(s, line) == Session(Root, s.visited)
    ensures line.Ls? ==> Step(s, line) == s
    ensures line.CdFwd? || line.CdBck? ==> Step(s, line).visited == s.visited
    ensures line.Dir? || line.File? ==>
      var r := Step(s, line);
      && r.current == s.current
      && r.visited.Keys == s.visited.Keys + {s.current}
      && (forall p :: p in s.visited && p != s.current ==> r.visited[p] == s.visited[p])
      && r.visited[s.current].children[line.name] == (if line.Dir? then Subdirectory else DirEntry.File(line.name, line.size))
      && (forall n :: n in r.visited[s.current].children && n != line.name ==>
            s.current in s.visited && n in s.visited[s.current].children
            && r.visited[s.current].children[n] == s.visited[s.current].children[n])
  {
  }

  /** The current directory stays under the root, whatever the log says. */
  lemma StepKeepsRoot(s: Session, line: Line)
    requires Rooted(s.current)
    ensures Rooted(Step(s, line).current)
  {
    if line.CdFwd? {
      RootIsKept(s.current, line.dir);
    }
  }

  /** The log run from a given session. */
  function RunFrom(s: Session, lines: seq<Line>): Session
    decreases |lines|
  {
    if lines == [] then s else RunFrom(Step(s, lines[0]), lines[1..])
  }

  /** The log run from `Terminal::default()`. */
  function Run(lines: seq<Line>): Session
  {
    RunFrom(Session(Root, map[]), lines)
  }

  lemma {:induction false} RunKeepsRoot(s: Session, lines: seq<Line>)
    requires Rooted(s.current)
    ensures Rooted(RunFrom(s, lines).current)
    decreases |lines|
  {
    if lines != [] {
      StepKeepsRoot(s, lines[0]);
      RunKeepsRoot(Step(s, lines[0]), lines[1..]);
    }
  }

  // --- Sums over hash-map keys ------------------------------------------

  /** The sum of `values` over `keys`, in no particular order. */
  ghost function SumOver<T>(keys: set<T>, values: map<T, nat>): nat
    requires keys <= values.Keys
  {
    if keys == {} then 0
    else
      var k :| k in keys;
      values[k] + SumOver(keys - {k}, values)
  }

  /** Any key may be taken out first: the sum does not depend on the order. */
  lemma {:induction false} SumOverRemove<T>(keys: set<T>, values: map<T, nat>, y: T)
    requires keys <= values.Keys && y in keys
    ensures SumOver(keys, values) == values[y] + SumOver(keys - {y}, values)
    decreases |keys|
  {
    var k :| k in keys && SumOver(keys, values) == values[k] + SumOver(keys - {k}, values);
    if k != y {
      SumOverRemove(keys - {k}, values, y);
      SumOverRemove(keys - {y}, values, k);
      assert keys - {k} - {y} == keys - {y} - {k};
    }
  }

  /** Sums agree when the values agree on the keys summed. */
  lemma {:induction false} SumOverCongruent<T>(keys: set<T>, v: map<T, nat>, w: map<T, nat>)
    requires keys <= v.Keys && keys <= w.Keys
    requires forall k :: k in keys ==> v[k] == w[k]
    ensures SumOver(keys, v) == SumOver(keys, w)
    decreases |keys|
  {
    if keys != {} {
      var k :| k in keys;
      SumOverRemove(keys, v, k);
      SumOverRemove(keys, w, k);
      SumOverCongruent(keys - {k}, v, w);
    }
  }

  // --- Directory sizes ---------------------------------------------------

  /** The longest path that has been visited. */
  ghost function MaxDepth(paths: set<FilePath>): (d: nat)
    ensures forall p :: p in paths ==> |p.parts| <= d
  {
    if paths == {} then 0
    else
      var p :| p in paths;
      var rest := MaxDepth(paths - {p});
      if |p.parts| > rest then |p.parts| else rest
  }

  /**
   * `get_size`: the sizes of the files of a visited directory plus the sizes
   * of its sub-directories; a directory the log never listed has size 0.
   */
  ghost function Size(dirs: Dirs, path: FilePath): nat
    decreases MaxDepth(dirs.Keys) + 1 - |path.parts|, 1
  {
    if path !in dirs then 0 else SumOver(dirs[path].children.Keys, ChildSizes(dirs, path))
  }

  /** The size of every child of a visited directory. */
  ghost function ChildSizes(dirs: Dirs, path: FilePath): (m: map<Name, nat>)
    requires path in dirs
    ensures m.Keys == dirs[path].children.Keys
    decreases MaxDepth(dirs.Keys) + 1 - |path.parts|, 0
  {
    map n | n in dirs[path].children ::
      match dirs[path].children[n]
      case File(_, size) => size
      case Subdirectory => Size(dirs, path.GoForward(n))
  }

  /** Only directories at or below a path count towards its size. */
  predicate IsPrefix(p: FilePath, q: FilePath)
  {
    |p.parts| <= |q.parts| && q.parts[..|p.parts|] == p.parts
  }

  /**
   * Changing the listing of a directory that is not at or below `path`
   * leaves the size of `path` unchanged.
   */
  lemma {:induction false} SizeIgnoresOtherDirs(dirs: Dirs, q: FilePath, d: Directory, path: FilePath)
    requires !IsPrefix(path, q)
    ensures Size(dirs[q := d], path) == Size(dirs, path)
    decreases MaxDepth(dirs.Keys) + MaxDepth(dirs[q := d].Keys) + 2 - 2 * |path.parts|
  {
    var dirs' := dirs[q := d];
    assert path != q;
    if path in dirs {
      var v := ChildSizes(dirs, path);
      var w := ChildSizes(dirs', path);
      forall n | n in dirs[path].children.Keys ensures v[n] == w[n] {
        if dirs[path].children[n].Subdirectory? {
          var child := path.GoForward(n);
          PrefixOfChild(path, n, q);
          SizeIgnoresOtherDirs(dirs, q, d, child);
        }
      }
      SumOverCongruent(dirs[path].children.Keys, v, w);
    }
  }

  lemma PrefixOfChild(path: FilePath, n: Name, q: FilePath)
    ensures IsPrefix(path.GoForward(n), q) ==> IsPrefix(path, q)
  {
    var child := path.GoForward(n);
    if IsPrefix(child, q) {
      assert q.parts[..|path.parts|] == child.parts[..|child.parts|][..|path.parts|];
      assert child.parts[..|path.parts|] == path.parts;
    }
  }

  /** Listing a new file in a directory adds its size to that directory's size. */
  lemma NewFileAddsItsSize(s: Session, name: Name, size: nat)
    requires s.current in s.visited && name !in s.visited[s.current].children
    ensures Size(Step(s, Line.File(name, size)).visited, s.current) == Size(s.visited, s.current) + size
  {
    var dirs := s.visited;
    var cur := s.current;
    var dirs' := Step(s, Line.File(name, size)).visited;
    var keys := dirs[cur].children.Keys;
    var v := ChildSizes(dirs, cur);
    var w := ChildSizes(dirs', cur);
    assert dirs'[cur].children.Keys == keys + {name};
    forall n | n in keys ensures v[n] == w[n] {
      if dirs[cur].children[n].Subdirectory? {
        var child := cur.GoForward(n);
        assert !IsPrefix(child, cur);
        SizeIgnoresOtherDirs(dirs, cur, dirs'[cur], child);
      }
    }
    SumOverRemove(keys + {name}, w, name);
    assert keys + {name} - {name} == keys;
    SumOverCongruent(keys, v, w);
  }

  /** The sizes `part1` keeps: those below 100000, the others count 0. */
  ghost function SmallSizes(dirs: Dirs): (m: map<FilePath, nat>)
    ensures m.Keys == dirs.Keys
  {
    map p | p in dirs :: if Size(dirs, p) < 100000 then Size(dirs, p) else 0
  }

  class Terminal {
    var currentDir: FilePath
    var visitedDirs: Dirs

    /** `Terminal::default()`: at the root, nothing seen. */
    constructor()
      ensures currentDir == Root && visitedDirs == map[]
    {
      currentDir := Root;
      visitedDirs := map[];
    }

    function State(): Session
      reads this
    {
      Session(currentDir, visitedDirs)
    }

    /** `run_cmd`: one log line applied to the terminal. */
    method RunCmd(line: Line)
      modifies this
      ensures State() == Step(old(State()), line)
    {
      match line {
        case CdFwd(dir) =>
          currentDir := currentDir.GoForward(dir);
        case CdBck =>
          currentDir := currentDir.GoBack();
        case CdRoot =>
          currentDir := Root;
        case Ls =>
        case Dir(name) =>
          var children := if currentDir in visitedDirs then visitedDirs[currentDir].children else map[];
          visitedDirs := visitedDirs[currentDir := Directory(children[name := Subdirectory])];
        case File(name, size) =>
          var children := if currentDir in visitedDirs then visitedDirs[currentDir].children else map[];
          visitedDirs := visitedDirs[currentDir := Directory(children[name := DirEntry.File(name, size)])];
      }
    }

    /** `get_size`: a loop over the children, recursing into sub-directories. */
    method GetSize(path: FilePath) returns (size: nat)
      ensures size == Size(visitedDirs, path)
      decreases MaxDepth(visitedDirs.Keys) + 1 - |path.parts|
    {
      if path !in visitedDirs {
        return 0;
      }
      var children := visitedDirs[path].children;
      ghost var values := ChildSizes(visitedDirs, path);
      size := 0;
      var remaining := children.Keys;
      while remaining != {}
        invariant remaining <= children.Keys
        invariant size + SumOver(remaining, values) == SumOver(children.Keys, values)
        decreases remaining
      {
        var name :| name in remaining;
        SumOverRemove(remaining, values, name);
        match children[name] {
          case Subdirectory =>
            var sub := GetSize(path.GoForward(name));
            size := size + sub;
          case File(_, sz) =>
            size := size + sz;
        }
        remaining := remaining - {name};
      }
    }

    /** The log replayed line by line. */
    method RunAll(lines: seq<Line>)
      modifies this
      ensures State() == RunFrom(old(State()), lines)
    {
      ghost var start := State();
      for i := 0 to |lines|
        invariant RunFrom(start, lines) == RunFrom(State(), lines[i..])
      {
        assert lines[i..][1..] == lines[i + 1..];
        RunCmd(lines[i]);
      }
    }
  }

  /** `part1`: the sum of the directory sizes below 100000. */
  method Part1(lines: seq<Line>) returns (r: nat)
    ensures var dirs := Run(lines).visited; r == SumOver(dirs.Keys, SmallSizes(dirs))
  {
    var terminal := new Terminal();
    terminal.RunAll(lines);
    var dirs := terminal.visitedDirs;
    ghost var small := SmallSizes(dirs);
    var remaining := dirs.Keys;
    r := 0;
    while remaining != {}
      invariant terminal.visitedDirs == dirs
      invariant remaining <= dirs.Keys
      invariant r + SumOver(remaining, small) == SumOver(dirs.Keys, small)
      decreases remaining
    {
      var dir :| dir in remaining;
      SumOverRemove(remaining, small, dir);
      var s := terminal.GetSize(dir);
      if s < 100000 {
        r := r + s;
      }
      remaining := remaining - {dir};
    }
  }

  const Available: nat := 40000000

  /**
   * `part2`: the smallest directory that frees enough space. The answer
   * exists exactly when the root uses at least 40000000, since the root is
   * then itself a candidate; below that, `root_size - 40_000_000` underflows.
   */
  method Part2(lines: seq<Line>) returns (r: Option<nat>)
    ensures var dirs := Run(lines).visited;
      r.Some? <==> Size(dirs, Root) >= Available
    ensures var dirs := Run(lines).visited;
      r.Some? ==>
        && (exists p :: p in dirs && Size(dirs, p) == r.value)
        && r.value >= Size(dirs, Root) - Available
        && forall p :: p in dirs && Size(dirs, p) >= Size(dirs, Root) - Available ==> r.value <= Size(dirs, p)
  {
    var terminal := new Terminal();
    terminal.RunAll(lines);
    var dirs := terminal.visitedDirs;
    var rootSize := terminal.GetSize(Root);
    if rootSize < Available {
      return None;
    }
    var required := rootSize - Available;
    assert Root in dirs;
    var best: Option<nat> := None;
    var remaining := dirs.Keys;
    while remaining != {}
      invariant terminal.visitedDirs == dirs
      invariant remaining <= dirs.Keys
      invariant best.None? ==> forall p :: p in dirs - remaining ==> Size(dirs, p) < required
      invariant best.Some? ==>
        && (exists p :: p in dirs && Size(dirs, p) == best.value)
        && best.value >= required
        && forall p :: p in dirs - remaining && Size(dirs, p) >= required ==> best.value <= Size(dirs, p)
      decreases remaining
    {
      var dir :| dir in remaining;
      var s := terminal.GetSize(dir);
      if s >= required && (best.None? || s < best.value) {
        best := Some(s);
      }
      remaining := remaining - {dir};
    }
    assert Root in dirs - remaining;
    return best;
  }
}
