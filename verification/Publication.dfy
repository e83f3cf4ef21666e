/**
 The dependency-ordered publication plan of tools/release/publish.ts: a depth-first
 topological sort that stops at published packages and rejects cycles.
 */
module Publication {
  import opened Wrappers
  import opened Ordering

  /** A dependency's `source` field: left out, null for a local package, or a registry address. */
  datatype Origin = Absent | Null | Address(text: string)
  datatype Dependency = Bare(name: string) | Detailed(name: string, source: Origin, dev: bool)
  datatype Manifest = Manifest(name: string, version: string, dependencies: seq<Dependency>,
      publish: Option<seq<string>>)
  datatype Package = Package(name: string, version: string)
  datatype PublishError = MissingPackage(name: string) | DependencyCycle(name: string) | NotPublishable(name: string)

  const TAPID := "tapid"
  const CRATES_IO := "crates-io"

  predicate Publishable(pkg: Manifest) {
    pkg.publish.None? || CRATES_IO in pkg.publish.value
  }

  /** The registry identity `name@version`. */
  function Identity(pkg: Manifest): string { pkg.name + "@" + pkg.version }

  /** What one declared dependency contributes to the local publication prerequisites. */
  function Prerequisite(dep: Dependency, packages: map<string, Manifest>): seq<string> {
    match dep
    case Bare(name) => [name]
    case Detailed(name, source, dev) =>
      if source != Null then []
      else if dev && name in packages && !Publishable(packages[name]) then []
      else [name]
  }

  function Prerequisites(deps: seq<Dependency>, packages: map<string, Manifest>): seq<string> {
    if deps == [] then [] else Prerequisite(deps[0], packages) + Prerequisites(deps[1..], packages)
  }

  /** `internalDependencies`. */
  function InternalDependencies(pkg: Manifest, packages: map<string, Manifest>): seq<string> {
    Sort(TextLe, Prerequisites(pkg.dependencies, packages))
  }

  /** What the search looks up about one package. */
  datatype Node = Node(published: bool, publishable: bool, deps: seq<string>)
  datatype Workspace = Workspace(packages: map<string, Node>)

  function WorkspaceOf(packages: map<string, Manifest>, published: set<string>): Workspace {
    Workspace(map n | n in packages ::
      Node(Identity(packages[n]) in published, Publishable(packages[n]), InternalDependencies(packages[n], packages)))
  }

  function Deps(ws: Workspace, name: string): seq<string>
    requires name in ws.packages
  {
    ws.packages[name].deps
  }

  predicate IsPublished(ws: Workspace, name: string)
    requires name in ws.packages
  {
    ws.packages[name].published
  }

  /** Known, and already published or publishable. */
  predicate Available(ws: Workspace, name: string) {
    name in ws.packages && (ws.packages[name].published || ws.packages[name].publishable)
  }

  /** A package that the plan has to publish. */
  predicate Outstanding(ws: Workspace, name: string) {
    name in ws.packages && !ws.packages[name].published && ws.packages[name].publishable
  }

  // ----- The depth-first search -----

  datatype Book = Book(visiting: set<string>, visited: set<string>, ordered: seq<string>)

  ghost function Unentered(ws: Workspace, b: Book): nat { |ws.packages.Keys - b.visiting| }

  lemma EnteringDecreases(ws: Workspace, b: Book, name: string)
    requires name in ws.packages && name !in b.visiting
    ensures Unentered(ws, b.(visiting := b.visiting + {name})) < Unentered(ws, b)
  {
    var rest := ws.packages.Keys - (b.visiting + {name});
    assert ws.packages.Keys - b.visiting == rest + {name};
  }

  function Visit(ws: Workspace, name: string, b: Book): (r: Result<Book, PublishError>)
    ensures r.Ok? ==> r.value.visiting == b.visiting
    decreases Unentered(ws, b), 0
  {
    if name in b.visited then Ok(b)
    else if name !in ws.packages then Err(MissingPackage(name))
    else if IsPublished(ws, name) then Ok(b.(visited := b.visited + {name}))
    else if name in b.visiting then Err(DependencyCycle(name))
    else if !ws.packages[name].publishable then Err(NotPublishable(name))
    else
      EnteringDecreases(ws, b, name);
      var inner := VisitAll(ws, Deps(ws, name), b.(visiting := b.visiting + {name}));
      if inner.Err? then inner
      else Ok(Book(b.visiting, inner.value.visited + {name}, inner.value.ordered + [name]))
  }

  function VisitAll(ws: Workspace, names: seq<string>, b: Book): (r: Result<Book, PublishError>)
    ensures r.Ok? ==> r.value.visiting == b.visiting
    decreases Unentered(ws, b), |names|
  {
    if names == [] then Ok(b)
    else
      var first := Visit(ws, names[0], b);
      if first.Err? then first else VisitAll(ws, names[1..], first.value)
  }

  /** `new Map(...)`: a later package with the same name replaces an earlier one. */
  function ByName(metadata: seq<Manifest>): (m: map<string, Manifest>)
    ensures forall n :: n in m ==> m[n].name == n && m[n] in metadata
  {
    if metadata == [] then map[]
    else
      var last := metadata[|metadata| - 1];
      ByName(metadata[..|metadata| - 1])[last.name := last]
  }

  /** Publishable packages other than `tapid`, sorted by name. */
  function RootNames(packages: map<string, Manifest>, metadata: seq<Manifest>): seq<string> {
    Canonical(TextLe, Candidates(packages, metadata))
  }

  function Candidates(packages: map<string, Manifest>, metadata: seq<Manifest>): (names: seq<string>)
    ensures forall n :: n in names <==>
              n != TAPID && n in packages && Publishable(packages[n])
                && exists i :: 0 <= i < |metadata| && metadata[i].name == n
  {
    if metadata == [] then []
    else
      var n := metadata[|metadata| - 1].name;
      Candidates(packages, metadata[..|metadata| - 1])
      + (if n != TAPID && n in packages && Publishable(packages[n]) then [n] else [])
  }

  const START := Book({}, {}, [])

  function Plan(metadata: seq<Manifest>, published: set<string>): Result<seq<string>, PublishError> {
    var packages := ByName(metadata);
    if TAPID !in packages then Err(MissingPackage(TAPID))
    else
      var done := VisitAll(WorkspaceOf(packages, published), RootNames(packages, metadata) + [TAPID], START);
      if done.Err? then Err(done.error) else Ok(done.value.ordered)
  }

  function ToPackages(packages: map<string, Manifest>, names: seq<string>): (r: seq<Package>)
    requires forall i :: 0 <= i < |names| ==> names[i] in packages
    ensures |r| == |names|
    ensures forall i :: 0 <= i < |names| ==> r[i] == Package(packages[names[i]].name, packages[names[i]].version)
  {
    seq(|names|, i requires 0 <= i < |names| => Package(packages[names[i]].name, packages[names[i]].version))
  }

  // ----- What every visit keeps -----

  ghost predicate Distinct(s: seq<string>) {
    forall i, j :: 0 <= i < j < |s| ==> s[i] != s[j]
  }

  /** Every unpublished prerequisite of an element stands before it, and every one is known. */
  ghost predicate DependencyFirst(ws: Workspace, ordered: seq<string>) {
    forall i :: 0 <= i < |ordered| ==> ordered[i] in ws.packages && Satisfied(ws, ordered[..i], ordered[i])
  }

  ghost predicate Satisfied(ws: Workspace, before: seq<string>, name: string)
    requires name in ws.packages
  {
    forall d :: d in Deps(ws, name) ==> d in ws.packages && (IsPublished(ws, d) || d in before)
  }

  ghost predicate Good(ws: Workspace, b: Book) {
    && b.visiting !! b.visited
    && (forall n :: n in b.visiting ==> Outstanding(ws, n))
    && (forall n :: n in b.visited ==> n in ws.packages && (IsPublished(ws, n) || n in b.ordered))
    && (forall n :: n in b.ordered ==> n in b.visited && Outstanding(ws, n))
    && Distinct(b.ordered)
    && DependencyFirst(ws, b.ordered)
  }

  /** What a successful visit adds: it only appends, and it never finishes an ancestor. */
  ghost predicate Grows(b: Book, c: Book) {
    && b.ordered <= c.ordered
    && b.visited <= c.visited
    && b.visiting == c.visiting
  }

  lemma FinishKeeps(ws: Workspace, b: Book, inner: Book, name: string)
    requires Good(ws, inner) && name in inner.visiting && b.visiting == inner.visiting - {name} && name !in b.visiting
    requires forall d :: d in Deps(ws, name) ==> d in inner.visited
    ensures Good(ws, Book(b.visiting, inner.visited + {name}, inner.ordered + [name]))
  {
    var c := Book(b.visiting, inner.visited + {name}, inner.ordered + [name]);
    assert name !in inner.visited;
    forall i | 0 <= i < |c.ordered|
      ensures c.ordered[i] in ws.packages && Satisfied(ws, c.ordered[..i], c.ordered[i]) {
      if i < |inner.ordered| {
        assert c.ordered[..i] == inner.ordered[..i];
        assert Satisfied(ws, inner.ordered[..i], inner.ordered[i]);
      } else {
        assert c.ordered[..i] == inner.ordered;
      }
    }
  }

  lemma {:induction false} VisitKeeps(ws: Workspace, name: string, b: Book)
    requires Good(ws, b) && Visit(ws, name, b).Ok?
    ensures var c := Visit(ws, name, b).value; Good(ws, c) && Grows(b, c) && name in c.visited
    decreases Unentered(ws, b), 0
  {
    if name !in b.visited && !IsPublished(ws, name) {
      EnteringDecreases(ws, b, name);
      var entered := b.(visiting := b.visiting + {name});
      VisitAllKeeps(ws, Deps(ws, name), entered);
      FinishKeeps(ws, b, VisitAll(ws, Deps(ws, name), entered).value, name);
    }
  }

  lemma {:induction false} VisitAllKeeps(ws: Workspace, names: seq<string>, b: Book)
    requires Good(ws, b) && VisitAll(ws, names, b).Ok?
    ensures var c := VisitAll(ws, names, b).value;
            Good(ws, c) && Grows(b, c) && forall n :: n in names ==> n in c.visited
    decreases Unentered(ws, b), |names|
  {
    if names != [] {
      VisitKeeps(ws, names[0], b);
      VisitAllKeeps(ws, names[1..], Visit(ws, names[0], b).value);
      assert forall n :: n in names ==> n == names[0] || n in names[1..];
    }
  }

  // ----- When a visit succeeds -----

  /** A closed walk through outstanding packages. */
  ghost predicate IsCycle(ws: Workspace, c: seq<string>) {
    && c != []
    && (forall i :: 0 <= i < |c| ==> Outstanding(ws, c[i]))
    && (forall i :: 0 < i < |c| ==> c[i] in Deps(ws, c[i - 1]))
    && c[0] in Deps(ws, c[|c| - 1])
  }

  ghost predicate Acyclic(ws: Workspace) {
    forall c :: !IsCycle(ws, c)
  }

  /** Every prerequisite of an outstanding package is known, and published or publishable. */
  ghost predicate Complete(ws: Workspace) {
    forall n, d :: Outstanding(ws, n) && d in Deps(ws, n) ==> Available(ws, d)
  }

  /** The packages being visited, outermost first: each one a prerequisite of the one before. */
  ghost predicate IsStack(ws: Workspace, stack: seq<string>, visiting: set<string>) {
    && (forall n :: n in visiting <==> n in stack)
    && (forall i :: 0 <= i < |stack| ==> Outstanding(ws, stack[i]))
    && (forall i :: 0 < i < |stack| ==> stack[i] in Deps(ws, stack[i - 1]))
  }

  /** Meeting a package that is being visited closes a cycle. */
  lemma StackCloses(ws: Workspace, name: string, visiting: set<string>, stack: seq<string>)
    requires IsStack(ws, stack, visiting) && name in visiting
    requires stack != [] ==> name in Deps(ws, stack[|stack| - 1])
    ensures !Acyclic(ws)
  {
    var i :| 0 <= i < |stack| && stack[i] == name;
    var c := stack[i..];
    forall j | 0 < j < |c| ensures c[j] in Deps(ws, c[j - 1]) {
      assert c[j] == stack[i + j] && c[j - 1] == stack[i + j - 1];
    }
    assert c[|c| - 1] == stack[|stack| - 1];
    assert IsCycle(ws, c);
  }

  lemma StackGrows(ws: Workspace, name: string, visiting: set<string>, stack: seq<string>)
    requires IsStack(ws, stack, visiting) && Outstanding(ws, name)
    requires stack != [] ==> name in Deps(ws, stack[|stack| - 1])
    ensures IsStack(ws, stack + [name], visiting + {name})
    ensures (stack + [name])[|stack + [name]| - 1] == name
  {
  }

  lemma {:induction false} VisitSucceeds(ws: Workspace, name: string, b: Book, stack: seq<string>)
    requires Acyclic(ws) && Complete(ws) && Available(ws, name) && IsStack(ws, stack, b.visiting)
    requires stack != [] ==> name in Deps(ws, stack[|stack| - 1])
    ensures Visit(ws, name, b).Ok?
    decreases Unentered(ws, b), 0
  {
    if name !in b.visited && !IsPublished(ws, name) {
      if name in b.visiting {
        StackCloses(ws, name, b.visiting, stack);
      }
      EnteringDecreases(ws, b, name);
      var entered := b.(visiting := b.visiting + {name});
      StackGrows(ws, name, b.visiting, stack);
      VisitAllSucceeds(ws, Deps(ws, name), entered, stack + [name]);
    }
  }

  lemma {:induction false} VisitAllSucceeds(ws: Workspace, names: seq<string>, b: Book, stack: seq<string>)
    requires Acyclic(ws) && Complete(ws) && IsStack(ws, stack, b.visiting)
    requires forall n :: n in names ==> Available(ws, n) && (stack != [] ==> n in Deps(ws, stack[|stack| - 1]))
    ensures VisitAll(ws, names, b).Ok?
    decreases Unentered(ws, b), |names|
  {
    if names != [] {
      VisitSucceeds(ws, names[0], b, stack);
      assert forall n :: n in names[1..] ==> n in names;
      VisitAllSucceeds(ws, names[1..], Visit(ws, names[0], b).value, stack);
    }
  }

  // ----- A dependency-first order has no cycle -----

  lemma {:induction false} StepsBack(ws: Workspace, ordered: seq<string>, c: seq<string>, i: nat, k: nat)
    requires DependencyFirst(ws, ordered) && IsCycle(ws, c) && i < |c|
    requires k < |ordered| && ordered[k] == c[0]
    ensures exists j :: 0 <= j <= k - i && ordered[j] == c[i]
  {
    if i > 0 {
      StepsBack(ws, ordered, c, i - 1, k);
      var j :| 0 <= j <= k - (i - 1) && ordered[j] == c[i - 1];
      assert Satisfied(ws, ordered[..j], ordered[j]);
      assert c[i] in ordered[..j];
      var m :| 0 <= m < j && ordered[m] == c[i];
    }
  }

  lemma OrderExcludesCycle(ws: Workspace, ordered: seq<string>, c: seq<string>)
    requires DependencyFirst(ws, ordered) && Distinct(ordered)
    requires forall n :: Outstanding(ws, n) ==> n in ordered
    ensures !IsCycle(ws, c)
  {
    if IsCycle(ws, c) {
      assert Outstanding(ws, c[0]);
      var k :| 0 <= k < |ordered| && ordered[k] == c[0];
      StepsBack(ws, ordered, c, |c| - 1, k);
    }
  }
}
