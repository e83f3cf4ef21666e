/**
 From placement paths to directories. Package names follow the grammar of
 crates/tapid-core/src/lib.rs; a scoped name takes two directory components. The
 rendering is injective and safe, and walking real directories upwards, as
 `resolveChild` in scripts/compare-news-site-package-graphs.ts does, is exactly the
 nearest-ancestor lookup of module LayoutModel.
 */
module LayoutPaths {
  import opened Wrappers
  import opened Text
  import opened PackageNames
  import opened LayoutModel

  const MODULES := "node_modules"

  /** Directory components of a name: two for a scoped one. */
  function Parts(n: Name): seq<string> {
    if n != [] && n[0] == '@' && Find(n, '/') < |n| then [n[..Find(n, '/')], n[Find(n, '/') + 1..]] else [n]
  }

  /** Directory components of a placement path, below the project root. */
  function Render(path: Path): seq<string> {
    if path == [] then [] else [MODULES] + Parts(path[0]) + Render(path[1..])
  }

  ghost predicate ValidPath(path: Path) {
    forall i :: 0 <= i < |path| ==> ValidName(path[i])
  }

  predicate Scoped(component: string) { component != [] && component[0] == '@' }

  /** Reads directory components back as a placement path. */
  function Parse(dirs: seq<string>): Option<Path> {
    if dirs == [] then Some([])
    else if |dirs| < 2 || dirs[0] != MODULES || (Scoped(dirs[1]) && |dirs| < 3) then None
    else
      var size := if Scoped(dirs[1]) then 3 else 2;
      var name := if Scoped(dirs[1]) then dirs[1] + "/" + dirs[2] else dirs[1];
      var rest := Parse(dirs[size..]);
      if rest.None? then None else Some([name] + rest.value)
  }

  lemma PartsShape(n: Name)
    requires ValidName(n)
    ensures if n[0] == '@'
            then |Parts(n)| == 2 && Scoped(Parts(n)[0]) && n == Parts(n)[0] + "/" + Parts(n)[1] && |Parts(n)[0]| >= 2
                 && '/' !in Parts(n)[1] && |Parts(n)[1]| >= 1 && NameChars(Parts(n)[1])
            else Parts(n) == [n] && !Scoped(n)
  {
    if n[0] == '@' {
      var slash := Find(n, '/');
      assert n == n[..slash] + [n[slash]] + n[slash + 1..];
      assert forall i :: 0 <= i < |Parts(n)[1]| ==> NameChar(Parts(n)[1][i]);
    }
  }

  /** Reading back peels one rendered name off the front. */
  lemma ParseName(n: Name, rest: seq<string>)
    requires ValidName(n)
    ensures Parse([MODULES] + Parts(n) + rest)
            == if Parse(rest).None? then None else Some([n] + Parse(rest).value)
  {
    PartsShape(n);
    var dirs := [MODULES] + Parts(n) + rest;
    assert dirs[..1 + |Parts(n)|] == [MODULES] + Parts(n);
    assert dirs[1 + |Parts(n)|..] == rest;
    assert dirs[1] == Parts(n)[0];
    if n[0] == '@' { assert dirs[2] == Parts(n)[1]; }
  }

  lemma Regrown(path: Path, more: Path)
    requires path != []
    ensures [path[0]] + (path[1..] + more) == path + more
  {
  }

  lemma ParseFirst(path: Path, rest: seq<string>)
    requires ValidPath(path) && path != []
    ensures var inner := Parse(Render(path[1..]) + rest);
            Parse(Render(path) + rest) == if inner.None? then None else Some([path[0]] + inner.value)
  {
    var inner := Render(path[1..]) + rest;
    assert Render(path) + rest == [MODULES] + Parts(path[0]) + inner;
    ParseName(path[0], inner);
  }

  lemma {:induction false} ParseRender(path: Path, rest: seq<string>)
    requires ValidPath(path)
    ensures Parse(Render(path) + rest)
            == if Parse(rest).None? then None else Some(path + Parse(rest).value)
  {
    if path == [] {
      assert Render(path) + rest == rest;
      if Parse(rest).Some? { assert path + Parse(rest).value == Parse(rest).value; }
    } else {
      ParseRender(path[1..], rest);
      ParseFirst(path, rest);
      if Parse(rest).Some? { Regrown(path, Parse(rest).value); }
    }
  }

  /** Round trip: distinct placement paths are distinct directories. */
  lemma RenderInjective(p: Path, q: Path)
    requires ValidPath(p) && ValidPath(q)
    ensures Parse(Render(p)) == Some(p)
    ensures Render(p) == Render(q) ==> p == q
  {
    ParseRender(p, []);
    ParseRender(q, []);
    assert Render(p) + [] == Render(p) && Render(q) + [] == Render(q);
    assert p + [] == p && q + [] == q;
  }

  predicate SafeComponent(c: string) { c != "" && c != "." && c != ".." && '/' !in c }

  lemma NameCharsSafe(s: string)
    requires NameChars(s)
    ensures '/' !in s
  {
    forall i | 0 <= i < |s| ensures s[i] != '/' { assert NameChar(s[i]); }
  }

  /** No component can leave the managed root: none is empty, `.` or `..`, or has a separator. */
  lemma {:induction false} RenderSafe(path: Path)
    requires ValidPath(path)
    ensures forall i :: 0 <= i < |Render(path)| ==> SafeComponent(Render(path)[i])
  {
    if path != [] {
      RenderSafe(path[1..]);
      var n := path[0];
      PartsShape(n);
      if n[0] == '@' {
        var p := Parts(n);
        assert p[1][|p[1]| - 1] == n[|n| - 1];
        assert '/' !in p[0];
        assert SafeComponent(p[0]) && SafeComponent(p[1]);
      } else {
        NameCharsSafe(n);
        assert SafeComponent(n);
      }
      assert SafeComponent(MODULES);
    }
  }

  // ----- Upward directory walk -----

  /** The directory of a placed package or of a workspace link. */
  predicate Present(g: Graph, placements: map<Path, InstanceKey>, d: seq<string>) {
    Parse(d).Some? && Render(Parse(d).value) == d && Held(g, placements, Parse(d).value)
  }

  /** What `existsSync` sees: exactly the directories of placed packages and workspace links. */
  ghost predicate Installed(g: Graph, placements: map<Path, InstanceKey>, dirs: set<seq<string>>) {
    forall d :: d in dirs <==> Present(g, placements, d)
  }

  /** The upward walk: try `node_modules/<name>` in each directory up to the project root. */
  function Walk(dirs: set<seq<string>>, current: seq<string>, name: Name): Option<seq<string>>
    decreases |current|
  {
    var candidate := current + [MODULES] + Parts(name);
    if candidate in dirs then Some(candidate)
    else if current == [] then None
    else Walk(dirs, current[..|current| - 1], name)
  }

  /** `resolveChild`, with paths relative to the project and `dirs` for the file system. */
  method ResolveChild(dirs: set<seq<string>>, parent: seq<string>, name: Name) returns (found: Option<seq<string>>)
    ensures found == Walk(dirs, parent, name)
  {
    var current := parent;
    while true
      invariant Walk(dirs, parent, name) == Walk(dirs, current, name)
      decreases |current|
    {
      var candidate := current + [MODULES] + Parts(name);
      if candidate in dirs { return Some(candidate); }
      if current == [] { break; }
      current := current[..|current| - 1];
    }
    return None;
  }

  lemma {:induction false} RenderAppend(p: Path, q: Path)
    ensures Render(p + q) == Render(p) + Render(q)
  {
    if p == [] {
      assert p + q == q;
    } else {
      assert (p + q)[1..] == p[1..] + q;
      RenderAppend(p[1..], q);
    }
  }

  lemma RenderOne(from: Path, name: Name)
    ensures Render(from + [name]) == Render(from) + [MODULES] + Parts(name)
  {
    RenderAppend(from, [name]);
    assert Render([name]) == [MODULES] + Parts(name) + Render([]) == [MODULES] + Parts(name);
  }

  /** A directory that does not read back is never an installed one. */
  lemma NotInstalled(g: Graph, placements: map<Path, InstanceKey>, dirs: set<seq<string>>, d: seq<string>)
    requires Installed(g, placements, dirs) && Parse(d).None?
    ensures d !in dirs
  {
  }

  lemma PartsAlone(n: Name)
    requires ValidName(n)
    ensures Parse(Parts(n)).None?
  {
    PartsShape(n);
    if n[0] == '@' { assert Parts(n)[0][0] != MODULES[0]; }
  }

  /** Directories between two packages (`node_modules` itself, a scope) answer nothing. */
  lemma BetweenPackages(outer: Path, m: Name, n: Name, inside: seq<string>)
    requires ValidPath(outer) && ValidName(m) && ValidName(n)
    requires inside == [MODULES] || (m[0] == '@' && inside == [MODULES, Parts(m)[0]])
    ensures Parse(Render(outer) + inside + [MODULES] + Parts(n)).None?
  {
    var tail := inside + [MODULES] + Parts(n);
    assert Render(outer) + tail == Render(outer) + inside + [MODULES] + Parts(n);
    ParseRender(outer, tail);
    PartsShape(m);
    PartsAlone(n);
    if inside == [MODULES] {
      assert tail[1] == MODULES && !Scoped(MODULES);
      assert tail[2..] == Parts(n);
    } else {
      assert tail[1] == Parts(m)[0] && tail[3..] == Parts(n);
    }
  }

  lemma BetweenIsEmpty(g: Graph, placements: map<Path, InstanceKey>, dirs: set<seq<string>>, outer: Path, m: Name,
                       n: Name, inside: seq<string>)
    requires Installed(g, placements, dirs) && ValidPath(outer) && ValidName(m) && ValidName(n)
    requires inside == [MODULES] || (m[0] == '@' && inside == [MODULES, Parts(m)[0]])
    ensures Render(outer) + inside + [MODULES] + Parts(n) !in dirs
  {
    BetweenPackages(outer, m, n, inside);
    NotInstalled(g, placements, dirs, Render(outer) + inside + [MODULES] + Parts(n));
  }

  lemma InstalledIff(g: Graph, placements: map<Path, InstanceKey>, dirs: set<seq<string>>, p: Path)
    requires Installed(g, placements, dirs) && ValidPath(p)
    ensures Render(p) in dirs <==> Held(g, placements, p)
  {
    RenderInjective(p, p);
  }

  lemma WalkUp(dirs: set<seq<string>>, current: seq<string>, last: string, n: Name)
    requires current + [last] + [MODULES] + Parts(n) !in dirs
    ensures Walk(dirs, current + [last], n) == Walk(dirs, current, n)
  {
    var here := current + [last];
    assert here[..|here| - 1] == current;
  }

  /** Steps of the walk from a package up to the package that contains it. */
  lemma WalkOut(dirs: set<seq<string>>, outer: seq<string>, m: Name, n: Name)
    requires ValidName(m)
    requires outer + [MODULES] + Parts(m) + [MODULES] + Parts(n) !in dirs
    requires outer + [MODULES] + [MODULES] + Parts(n) !in dirs
    requires m[0] == '@' ==> outer + [MODULES, Parts(m)[0]] + [MODULES] + Parts(n) !in dirs
    ensures Walk(dirs, outer + [MODULES] + Parts(m), n) == Walk(dirs, outer, n)
  {
    PartsShape(m);
    WalkUp(dirs, outer, MODULES, n);
    if m[0] == '@' {
      var scope := outer + [MODULES] + [Parts(m)[0]];
      assert scope == outer + [MODULES, Parts(m)[0]];
      assert outer + [MODULES] + Parts(m) == scope + [Parts(m)[1]];
      WalkUp(dirs, outer + [MODULES], Parts(m)[0], n);
      WalkUp(dirs, scope, Parts(m)[1], n);
    } else {
      WalkUp(dirs, outer + [MODULES], m, n);
    }
  }

  lemma OwnIsEmpty(g: Graph, placements: map<Path, InstanceKey>, dirs: set<seq<string>>, outer: Path, m: Name, n: Name)
    requires Installed(g, placements, dirs) && ValidPath(outer) && ValidName(m) && ValidName(n)
    requires !Held(g, placements, outer + [m] + [n])
    ensures Render(outer) + [MODULES] + Parts(m) + [MODULES] + Parts(n) !in dirs
  {
    InstalledIff(g, placements, dirs, outer + [m] + [n]);
    RenderOne(outer + [m], n);
    RenderOne(outer, m);
  }

  lemma WalkLeavesPackage(g: Graph, placements: map<Path, InstanceKey>, dirs: set<seq<string>>, outer: Path, m: Name,
                          n: Name)
    requires Installed(g, placements, dirs) && ValidPath(outer) && ValidName(m) && ValidName(n)
    requires !Held(g, placements, outer + [m] + [n])
    ensures Walk(dirs, Render(outer + [m]), n) == Walk(dirs, Render(outer), n)
  {
    OwnIsEmpty(g, placements, dirs, outer, m, n);
    RenderOne(outer, m);
    BetweenIsEmpty(g, placements, dirs, outer, m, n, [MODULES]);
    if m[0] == '@' { BetweenIsEmpty(g, placements, dirs, outer, m, n, [MODULES, Parts(m)[0]]); }
    WalkOut(dirs, Render(outer), m, n);
  }

  lemma CandidateIff(g: Graph, placements: map<Path, InstanceKey>, dirs: set<seq<string>>, from: Path, name: Name)
    requires Installed(g, placements, dirs) && ValidPath(from) && ValidName(name)
    ensures Render(from) + [MODULES] + Parts(name) == Render(from + [name])
    ensures Render(from + [name]) in dirs <==> Held(g, placements, from + [name])
  {
    RenderOne(from, name);
    InstalledIff(g, placements, dirs, from + [name]);
  }

  lemma WalkAtRoot(dirs: set<seq<string>>, name: Name)
    ensures Walk(dirs, [], name) == var c := [MODULES] + Parts(name); if c in dirs then Some(c) else None
  {
    assert [] + [MODULES] + Parts(name) == [MODULES] + Parts(name);
  }

  /**
   Walking real directories upwards from a package is nearest-ancestor lookup over
   placements: no scope directory or `node_modules` directory on the way can answer.
   */
  lemma {:induction false} WalkIsResolve(g: Graph, placements: map<Path, InstanceKey>, dirs: set<seq<string>>,
                                         from: Path, name: Name)
    requires Installed(g, placements, dirs) && ValidPath(from) && ValidName(name)
    ensures var found := Resolve(g, placements, from, name);
            Walk(dirs, Render(from), name) == if found.None? then None else Some(Render(found.value))
    decreases |from|
  {
    CandidateIff(g, placements, dirs, from, name);
    if !Held(g, placements, from + [name]) {
      if from == [] {
        WalkAtRoot(dirs, name);
        assert Render(from) == [];
        assert [] + [MODULES] + Parts(name) == [MODULES] + Parts(name);
      } else {
        var outer, m := from[..|from| - 1], from[|from| - 1];
        assert from == outer + [m];
        WalkLeavesPackage(g, placements, dirs, outer, m, name);
        WalkIsResolve(g, placements, dirs, outer, name);
      }
    }
  }

  // ----- The directory as text -----

  lemma {:induction false} JoinAppend(a: seq<string>, b: seq<string>)
    requires a != [] && b != []
    ensures Join(a + b, '/') == Join(a, '/') + "/" + Join(b, '/')
  {
    if |a| == 1 {
      assert (a + b)[1..] == b;
    } else {
      assert (a + b)[1..] == a[1..] + b;
      JoinAppend(a[1..], b);
    }
  }

  lemma PartsText(name: Name)
    requires ValidName(name)
    ensures Parts(name) != [] && Join(Parts(name), '/') == name
  {
    PartsShape(name);
    if name[0] == '@' { assert Parts(name)[1..] == [Parts(name)[1]]; }
  }

  /** Text of a directory, and of one inside it. */
  function Inner(outer: string, inner: string): string {
    if outer == "" then inner else outer + "/" + inner
  }

  lemma JoinInner(outer: seq<string>, inner: seq<string>)
    requires inner != [] && (outer == [] <==> Join(outer, '/') == "")
    ensures Join(outer + inner, '/') == Inner(Join(outer, '/'), Join(inner, '/'))
  {
    if outer == [] { assert outer + inner == inner; } else { JoinAppend(outer, inner); }
  }

  lemma RenderedIsNotEmpty(path: Path)
    ensures path == [] <==> Join(Render(path), '/') == ""
  {
    if path != [] { assert Render(path)[0] == MODULES; }
  }

  /** Joined, the directory of a placement is its parent's, then `node_modules/` and the name as it is spelled. */
  lemma RenderText(outer: Path, name: Name)
    requires ValidName(name)
    ensures Join(Render(outer + [name]), '/') == Inner(Join(Render(outer), '/'), MODULES + "/" + name)
    ensures MODULES == "node_modules"
  {
    RenderOne(outer, name);
    PartsText(name);
    JoinAppend([MODULES], Parts(name));
    RenderedIsNotEmpty(outer);
    JoinInner(Render(outer), [MODULES] + Parts(name));
    assert Render(outer) + [MODULES] + Parts(name) == Render(outer) + ([MODULES] + Parts(name));
  }
}
