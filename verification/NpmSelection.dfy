/**
 npm-lock platform selection: `PackagePlatform::matches` of
 crates/tapid-core/src/platform.rs and `ImportedNpmGraph::selected_paths` of
 crates/tapid-lockfile/src/npm_import.rs.
 */
module NpmSelection {
  import opened Wrappers

  // ----- Platform constraints -----

  datatype PackagePlatform = PackagePlatform(os: seq<string>, cpu: seq<string>, libc: seq<string>)
  datatype Host = Host(os: string, cpu: string, libc: Option<string>)

  predicate Negated(value: string) { value != [] && value[0] == '!' }

  function NpmOs(value: string): string {
    if value == "macos" then "darwin" else if value == "windows" then "win32" else value
  }

  function NpmCpu(value: string): string {
    if value == "aarch64" then "arm64" else if value == "x86_64" then "x64" else if value == "x86" then "ia32"
    else value
  }

  /** npm's name for an operating system, and for a processor. */
  predicate IsNpmOs(given: string, npm: string) {
    || (given == "macos" && npm == "darwin")
    || (given == "windows" && npm == "win32")
    || (given !in {"macos", "windows"} && npm == given)
  }

  predicate IsNpmCpu(given: string, npm: string) {
    || (given == "aarch64" && npm == "arm64")
    || (given == "x86_64" && npm == "x64")
    || (given == "x86" && npm == "ia32")
    || (given !in {"aarch64", "x86_64", "x86"} && npm == given)
  }

  lemma NpmNames(os: string, cpu: string)
    ensures IsNpmOs(os, NpmOs(os)) && IsNpmCpu(cpu, NpmCpu(cpu))
    ensures NpmOs(os) == "linux" <==> os == "linux"
  {
    assert |"macos"| == 5 && |"windows"| == 7 && |"darwin"| == 6 && |"win32"| == 5 && |"linux"| == 5;
    assert "macos"[0] == 'm' && "linux"[0] == 'l' && "win32"[0] == 'w';
    assert |"aarch64"| == 7 && |"x86_64"| == 6 && |"x86"| == 3;
  }

  /** npm's rule for one dimension: not excluded, and listed if anything is listed. */
  ghost predicate Permits(values: seq<string>, current: Option<string>) {
    values == []
    || (current.Some?
        && "!" + current.value !in values
        && ((forall v :: v in values ==> Negated(v)) || (current.value in values && !Negated(current.value))))
  }

  ghost predicate Compatible(p: PackagePlatform, host: Host) {
    && Permits(p.os, Some(NpmOs(host.os)))
    && Permits(p.cpu, Some(NpmCpu(host.cpu)))
    && (NpmOs(host.os) == "linux" ==>
          Permits(p.libc, host.libc) || (host.libc.None? && forall v :: v in p.libc ==> Negated(v)))
  }

  method ValueMatches(values: seq<string>, current: Option<string>) returns (ok: bool)
    ensures ok <==> Permits(values, current)
  {
    if values == [] { return true; }
    if current.None? { return false; }
    var hasPositive, positiveMatch := false, false;
    var i := 0;
    while i < |values|
      invariant 0 <= i <= |values|
      invariant hasPositive <==> exists j :: 0 <= j < i && !Negated(values[j])
      invariant positiveMatch <==> exists j :: 0 <= j < i && !Negated(values[j]) && values[j] == current.value
      invariant forall j :: 0 <= j < i ==> values[j] != "!" + current.value
    {
      var value := values[i];
      if Negated(value) {
        assert value == "!" + value[1..];
        if value[1..] == current.value { return false; }
      } else {
        hasPositive := true;
        positiveMatch := positiveMatch || value == current.value;
      }
      i := i + 1;
    }
    ok := !hasPositive || positiveMatch;
  }

  method OnlyNegated(values: seq<string>) returns (ok: bool)
    ensures ok <==> forall v :: v in values ==> Negated(v)
  {
    for i := 0 to |values|
      invariant forall j :: 0 <= j < i ==> Negated(values[j])
    {
      if !Negated(values[i]) { return false; }
    }
    return true;
  }

  /** `matches`. */
  method Matches(p: PackagePlatform, host: Host) returns (ok: bool)
    ensures ok <==> Compatible(p, host)
  {
    var os, cpu := NpmOs(host.os), NpmCpu(host.cpu);
    var negated := OnlyNegated(p.libc);
    var libc := true;
    if !(os != "linux" || (host.libc.None? && negated)) { libc := ValueMatches(p.libc, host.libc); }
    var a := ValueMatches(p.os, Some(os));
    var b := ValueMatches(p.cpu, Some(cpu));
    ok := a && b && libc;
  }

  // ----- The imported graph -----

  datatype Target = Target(name: string, path: string)
  datatype Edge = Edge(path: string, optional: bool)
  datatype ImportedPackage = ImportedPackage(
    platform: PackagePlatform,
    dependencies: seq<Target>,
    optionalDependencies: set<string>,
    peers: seq<Target>,
    optionalPeers: set<string>)
  datatype EntryPoints = EntryPoints(dependencies: seq<Target>, optional: set<string>)
  datatype ImportedGraph = ImportedGraph(packages: map<string, ImportedPackage>, roots: EntryPoints,
      members: seq<EntryPoints>)

  function ToEdges(targets: seq<Target>, optional: set<string>): (edges: seq<Edge>)
    ensures |edges| == |targets|
    ensures forall i :: 0 <= i < |targets| ==> edges[i] == Edge(targets[i].path, targets[i].name in optional)
  {
    seq(|targets|, i requires 0 <= i < |targets| => Edge(targets[i].path, targets[i].name in optional))
  }

  function EdgesOf(p: ImportedPackage): seq<Edge> {
    ToEdges(p.dependencies, p.optionalDependencies) + ToEdges(p.peers, p.optionalPeers)
  }

  function MemberEdges(members: seq<EntryPoints>): seq<Edge> {
    if members == [] then []
    else MemberEdges(members[..|members| - 1])
         + ToEdges(members[|members| - 1].dependencies, members[|members| - 1].optional)
  }

  /** Entry points of the project and of every workspace member. */
  function RootEdges(g: ImportedGraph): seq<Edge> {
    ToEdges(g.roots.dependencies, g.roots.optional) + MemberEdges(g.members)
  }

  /** A target has the edge's path, and its name decides whether the edge is optional. */
  ghost predicate Leads(targets: seq<Target>, optional: set<string>, e: Edge) {
    exists t :: t in targets && t.path == e.path && (e.optional <==> t.name in optional)
  }

  /** A dependency or a peer of the package leads along the edge. */
  ghost predicate LeadsFrom(p: ImportedPackage, e: Edge) {
    Leads(p.dependencies, p.optionalDependencies, e) || Leads(p.peers, p.optionalPeers, e)
  }

  /** A dependency of the project or of some workspace member leads along the edge. */
  ghost predicate LeadsIn(g: ImportedGraph, e: Edge) {
    || Leads(g.roots.dependencies, g.roots.optional, e)
    || exists i :: 0 <= i < |g.members| && Leads(g.members[i].dependencies, g.members[i].optional, e)
  }

  lemma ToEdgesIff(targets: seq<Target>, optional: set<string>, e: Edge)
    ensures e in ToEdges(targets, optional) <==> Leads(targets, optional, e)
  {
    var edges := ToEdges(targets, optional);
    if e in edges {
      var i :| 0 <= i < |edges| && edges[i] == e;
      assert targets[i] in targets;
    }
    if t :| t in targets && t.path == e.path && (e.optional <==> t.name in optional) {
      var i :| 0 <= i < |targets| && targets[i] == t;
      assert edges[i] == e;
    }
  }

  lemma {:induction false} MemberEdgesIff(members: seq<EntryPoints>, e: Edge)
    ensures e in MemberEdges(members)
            <==> exists i :: 0 <= i < |members| && Leads(members[i].dependencies, members[i].optional, e)
    decreases |members|
  {
    if members != [] {
      var front, last := members[..|members| - 1], members[|members| - 1];
      MemberEdgesIff(front, e);
      ToEdgesIff(last.dependencies, last.optional, e);
      assert forall i :: 0 <= i < |front| ==> members[i] == front[i];
    }
  }

  /** The edges of the project and its members are exactly their targets. */
  lemma RootEdgesIff(g: ImportedGraph)
    ensures forall e :: e in RootEdges(g) <==> LeadsIn(g, e)
  {
    forall e ensures e in RootEdges(g) <==> LeadsIn(g, e) {
      ToEdgesIff(g.roots.dependencies, g.roots.optional, e);
      MemberEdgesIff(g.members, e);
    }
  }

  /** The edges of a package are exactly its dependencies and its peers. */
  lemma EdgesOfIff(p: ImportedPackage)
    ensures forall e :: e in EdgesOf(p) <==> LeadsFrom(p, e)
  {
    forall e ensures e in EdgesOf(p) <==> LeadsFrom(p, e) {
      ToEdgesIff(p.dependencies, p.optionalDependencies, e);
      ToEdgesIff(p.peers, p.optionalPeers, e);
    }
  }

  /** What graph validation guarantees: every edge targets a recorded placement. */
  ghost predicate Closed(g: ImportedGraph) {
    && (forall e :: LeadsIn(g, e) ==> e.path in g.packages)
    && (forall p, e :: p in g.packages && LeadsFrom(g.packages[p], e) ==> e.path in g.packages)
  }

  ghost predicate Fits(g: ImportedGraph, host: Host, path: string) {
    path in g.packages && Compatible(g.packages[path].platform, host)
  }

  /** The edge starts at a root, or at a package of `s`. */
  ghost predicate LeavesFrom(g: ImportedGraph, s: set<string>, e: Edge) {
    LeadsIn(g, e) || exists p :: p in s && p in g.packages && LeadsFrom(g.packages[p], e)
  }

  /** `s` holds every compatible target of a root and of its own members. */
  ghost predicate ClosedSelection(g: ImportedGraph, host: Host, s: set<string>) {
    forall e :: LeavesFrom(g, s, e) && Fits(g, host, e.path) ==> e.path in s
  }

  /** The least closed selection, as the intersection of all of them. */
  ghost function LeastSelection(g: ImportedGraph, host: Host): set<string> {
    set p | p in g.packages && InEvery(g, host, p)
  }

  ghost predicate InEvery(g: ImportedGraph, host: Host, p: string) {
    forall s :: ClosedSelection(g, host, s) ==> p in s
  }

  lemma LeastIsClosed(g: ImportedGraph, host: Host)
    ensures ClosedSelection(g, host, LeastSelection(g, host))
    ensures forall s :: ClosedSelection(g, host, s) ==> LeastSelection(g, host) <= s
  {
    var least := LeastSelection(g, host);
    forall e | LeavesFrom(g, least, e) && Fits(g, host, e.path) ensures e.path in least {
      forall s | ClosedSelection(g, host, s) ensures e.path in s {
        assert LeavesFrom(g, s, e);
      }
    }
  }

  /** A required edge of the selection targets a package that does not fit the host. */
  ghost predicate Blocks(g: ImportedGraph, host: Host, s: set<string>, e: Edge) {
    LeavesFrom(g, s, e) && !e.optional && !Fits(g, host, e.path)
  }

  ghost predicate Blocked(g: ImportedGraph, host: Host, s: set<string>) {
    exists e :: Blocks(g, host, s, e)
  }

  lemma BlockedByEdge(g: ImportedGraph, host: Host, s: set<string>, e: Edge)
    requires Blocks(g, host, s, e)
    ensures Blocked(g, host, s)
  {
  }

  // ----- The worklist -----

  ghost function Slots(g: ImportedGraph): set<Edge> {
    set p, o | p in g.packages.Keys && o in {true, false} :: Edge(p, o)
  }

  ghost predicate Progress(g: ImportedGraph, host: Host, selected: set<string>, visited: set<Edge>,
                           pending: seq<Edge>) {
    && selected <= LeastSelection(g, host)
    && visited <= Slots(g)
    && (forall e :: e in pending ==> e in Slots(g) && LeavesFrom(g, selected, e))
    && (forall e :: LeavesFrom(g, selected, e) ==> e in visited || e in pending)
    && (forall e :: e in visited ==> if Fits(g, host, e.path) then e.path in selected else e.optional)
  }

  lemma VisitShrinks(g: ImportedGraph, visited: set<Edge>, e: Edge)
    requires e in Slots(g) && e !in visited
    ensures |Slots(g) - (visited + {e})| < |Slots(g) - visited|
  {
    assert Slots(g) - visited == (Slots(g) - (visited + {e})) + {e};
  }

  lemma PushKeeps(g: ImportedGraph, host: Host, selected: set<string>, visited: set<Edge>, pending: seq<Edge>, e: Edge)
    requires Closed(g) && Progress(g, host, selected, visited, pending + [e])
    requires Fits(g, host, e.path)
    ensures Progress(g, host, selected + {e.path}, visited + {e}, pending + EdgesOf(g.packages[e.path]))
  {
    var more := EdgesOf(g.packages[e.path]);
    EdgesOfIff(g.packages[e.path]);
    var grown := selected + {e.path};
    LeastIsClosed(g, host);
    assert e in pending + [e];
    assert LeavesFrom(g, LeastSelection(g, host), e);
    forall x | x in pending + more ensures x in Slots(g) && LeavesFrom(g, grown, x) {
      if x in pending {
        assert x in pending + [e];
        assert LeavesFrom(g, selected, x);
      } else {
        assert e.path in grown;
      }
    }
    forall x | LeavesFrom(g, grown, x) ensures x in visited + {e} || x in pending + more {
      if LeavesFrom(g, selected, x) {
        assert x in visited || x in pending + [e];
      } else {
        assert x in more;
      }
    }
  }

  lemma SkipKeeps(g: ImportedGraph, host: Host, selected: set<string>, visited: set<Edge>, pending: seq<Edge>, e: Edge)
    requires Progress(g, host, selected, visited, pending + [e])
    requires e in visited || (!Fits(g, host, e.path) && e.optional)
    ensures Progress(g, host, selected, visited + {e}, pending)
  {
    assert e in pending + [e];
    forall x | x in pending ensures x in Slots(g) && LeavesFrom(g, selected, x) {
      assert x in pending + [e];
    }
    forall x | LeavesFrom(g, selected, x) ensures x in visited + {e} || x in pending {
      assert x in visited || x in pending + [e];
    }
  }

  lemma FinishedIsLeast(g: ImportedGraph, host: Host, selected: set<string>, visited: set<Edge>)
    requires Progress(g, host, selected, visited, [])
    ensures selected == LeastSelection(g, host) && !Blocked(g, host, selected)
  {
    assert ClosedSelection(g, host, selected);
    LeastIsClosed(g, host);
  }

  lemma FailureIsBlocked(g: ImportedGraph, host: Host, selected: set<string>, visited: set<Edge>, pending: seq<Edge>,
                         e: Edge)
    requires Progress(g, host, selected, visited, pending + [e])
    requires !e.optional && !Fits(g, host, e.path)
    ensures Blocks(g, host, LeastSelection(g, host), e)
  {
    assert e in pending + [e];
  }

  lemma StartsInProgress(g: ImportedGraph, host: Host)
    requires Closed(g)
    ensures Progress(g, host, {}, {}, RootEdges(g))
  {
    RootEdgesIff(g);
  }

  lemma PoppedIsKnown(g: ImportedGraph, host: Host, selected: set<string>, visited: set<Edge>, pending: seq<Edge>,
                      e: Edge)
    requires Progress(g, host, selected, visited, pending + [e])
    ensures e in Slots(g) && e.path in g.packages
  {
    assert e in pending + [e];
  }

  /** Pops the last edge and does what it asks to the tables. */
  method Consider(g: ImportedGraph, host: Host, selected: set<string>, visited: set<Edge>, pending: seq<Edge>)
    returns (selected': set<string>, visited': set<Edge>, pending': seq<Edge>, failed: Option<string>)
    requires pending != [] && Closed(g) && Progress(g, host, selected, visited, pending)
    ensures failed.Some? ==> Blocks(g, host, LeastSelection(g, host), Edge(failed.value, false))
    ensures failed.None? ==> Progress(g, host, selected', visited', pending')
    ensures failed.None? ==>
              (visited' == visited && |pending'| < |pending|) || |Slots(g) - visited'| < |Slots(g) - visited|
  {
    var rest, e := pending[..|pending| - 1], pending[|pending| - 1];
    assert pending == rest + [e];
    selected', visited', pending', failed := selected, visited, rest, None;
    if e in visited {
      SkipKeeps(g, host, selected, visited, rest, e);
      assert visited + {e} == visited;
      return;
    }
    PoppedIsKnown(g, host, selected, visited, rest, e);
    VisitShrinks(g, visited, e);
    visited' := visited + {e};
    var package := g.packages[e.path];
    var compatible := Matches(package.platform, host);
    if compatible {
      PushKeeps(g, host, selected, visited, rest, e);
      selected' := selected + {e.path};
      pending' := rest + EdgesOf(package);
    } else if e.optional {
      SkipKeeps(g, host, selected, visited, rest, e);
    } else {
      FailureIsBlocked(g, host, selected, visited, rest, e);
      assert e == Edge(e.path, false);
      failed := Some(e.path);
    }
  }

  /**
   `selected_paths`: the least closed selection, or the first incompatible required
   target met. It fails exactly when the least selection has one, so the outcome does
   not depend on the order of the worklist.
   */
  method SelectedPaths(g: ImportedGraph, host: Host) returns (r: Result<set<string>, string>)
    requires Closed(g)
    ensures r.Ok? <==> !Blocked(g, host, LeastSelection(g, host))
    ensures r.Ok? ==> r.value == LeastSelection(g, host)
    ensures r.Err? ==> Blocks(g, host, LeastSelection(g, host), Edge(r.error, false))
  {
    var selected: set<string>, visited: set<Edge> := {}, {};
    var pending := RootEdges(g);
    StartsInProgress(g, host);
    while pending != []
      invariant Progress(g, host, selected, visited, pending)
      decreases |Slots(g) - visited|, |pending|
    {
      var failed;
      selected, visited, pending, failed := Consider(g, host, selected, visited, pending);
      if failed.Some? {
        BlockedByEdge(g, host, LeastSelection(g, host), Edge(failed.value, false));
        return Err(failed.value);
      }
    }
    FinishedIsLeast(g, host, selected, visited);
    return Ok(selected);
  }
}
