/**
 The publication plan on the manifests themselves: which declared dependencies are
 prerequisites, which packages are planned and when, in what order, and what each error
 reports.
 */
module PublicationMeaning {
  import opened Wrappers
  import opened Ordering
  import opened Publication
  import opened PublicationTheorems

  // ----- Manifest fields -----

  /** The last manifest of the metadata with this name. */
  ghost predicate Current(metadata: seq<Manifest>, name: string, m: Manifest) {
    m.name == name && exists i :: IsLast(metadata, m, i)
  }

  /** It stands at `i`, and no later manifest has its name. */
  ghost predicate IsLast(metadata: seq<Manifest>, m: Manifest, i: int) {
    0 <= i < |metadata| && metadata[i] == m && forall j :: i < j < |metadata| ==> metadata[j].name != m.name
  }

  /** Its publish list is left out, or names crates.io. */
  predicate Ships(m: Manifest) { m.publish == None || (m.publish.Some? && "crates-io" in m.publish.value) }

  predicate InRegistry(m: Manifest, published: set<string>) { m.name + "@" + m.version in published }

  /** A development dependency on a package of the metadata that is never published to crates.io. */
  ghost predicate PrivateFixture(metadata: seq<Manifest>, name: string) {
    exists m :: Current(metadata, name, m) && m.publish.Some? && "crates-io" !in m.publish.value
  }

  /** `p` declares `d` by bare name, or as a local package that is no private development fixture. */
  ghost predicate Declares(metadata: seq<Manifest>, p: Manifest, d: string) {
    || Bare(d) in p.dependencies
    || Detailed(d, Null, false) in p.dependencies
    || (Detailed(d, Null, true) in p.dependencies && !PrivateFixture(metadata, d))
  }

  lemma CurrentBack(metadata: seq<Manifest>, name: string, m: Manifest)
    requires metadata != []
    ensures var last := metadata[|metadata| - 1];
            Current(metadata, name, m)
            <==> if last.name == name then m == last else Current(metadata[..|metadata| - 1], name, m)
  {
    var front, last := metadata[..|metadata| - 1], metadata[|metadata| - 1];
    if last.name == name {
      assert IsLast(metadata, last, |front|);
    } else {
      if i :| IsLast(front, m, i) { assert m.name == name ==> IsLast(metadata, m, i); }
      if i :| IsLast(metadata, m, i) { assert m.name == name ==> IsLast(front, m, i); }
    }
  }

  lemma {:induction false} CurrentIff(metadata: seq<Manifest>, name: string, m: Manifest)
    ensures Current(metadata, name, m) <==> name in ByName(metadata) && ByName(metadata)[name] == m
  {
    if metadata != [] {
      CurrentBack(metadata, name, m);
      CurrentIff(metadata[..|metadata| - 1], name, m);
    }
  }

  lemma {:induction false} PrerequisitesIff(deps: seq<Dependency>, packages: map<string, Manifest>, d: string)
    ensures d in Prerequisites(deps, packages) <==> exists x :: x in deps && d in Prerequisite(x, packages)
  {
    if deps != [] {
      PrerequisitesIff(deps[1..], packages, d);
      assert deps == [deps[0]] + deps[1..];
    }
  }

  lemma OneIff(x: Dependency, packages: map<string, Manifest>, d: string)
    ensures d in Prerequisite(x, packages)
            <==> || x == Bare(d) || x == Detailed(d, Null, false)
                 || (x == Detailed(d, Null, true) && !(d in packages && !Publishable(packages[d])))
  {
  }

  /** Exactly the declared dependencies that are prerequisites. */
  lemma InternalIff(metadata: seq<Manifest>, p: Manifest, d: string)
    ensures d in InternalDependencies(p, ByName(metadata)) <==> Declares(metadata, p, d)
  {
    var packages := ByName(metadata);
    SortElements(TextLe, Prerequisites(p.dependencies, packages));
    PrerequisitesIff(p.dependencies, packages, d);
    FixtureIff(metadata, d);
    OneIff(Bare(d), packages, d);
    OneIff(Detailed(d, Null, false), packages, d);
    OneIff(Detailed(d, Null, true), packages, d);
    forall x | x in p.dependencies && d in Prerequisite(x, packages) ensures Declares(metadata, p, d) {
      OneIff(x, packages, d);
    }
  }

  lemma InternalSorted(p: Manifest, packages: map<string, Manifest>)
    ensures Sorted(TextLe, InternalDependencies(p, packages))
  {
    TextOrder();
    SortSorted(TextLe, Prerequisites(p.dependencies, packages));
  }

  lemma FixtureIff(metadata: seq<Manifest>, name: string)
    ensures PrivateFixture(metadata, name)
            <==> name in ByName(metadata) && !Publishable(ByName(metadata)[name])
  {
    if name in ByName(metadata) { CurrentIff(metadata, name, ByName(metadata)[name]); }
    forall m | Current(metadata, name, m) ensures name in ByName(metadata) && ByName(metadata)[name] == m {
      CurrentIff(metadata, name, m);
    }
  }

  // ----- The search graph on manifests -----

  /** Not in the registry, and to be published. */
  ghost predicate ToPublish(metadata: seq<Manifest>, published: set<string>, name: string) {
    exists m :: Current(metadata, name, m) && Ships(m) && !InRegistry(m, published)
  }

  ghost predicate Usable(metadata: seq<Manifest>, published: set<string>, name: string) {
    exists m :: Current(metadata, name, m) && (Ships(m) || InRegistry(m, published))
  }

  ghost predicate Released(metadata: seq<Manifest>, published: set<string>, name: string) {
    exists m :: Current(metadata, name, m) && InRegistry(m, published)
  }

  /** The current manifest of `name` declares `d` as a prerequisite. */
  ghost predicate Requires(metadata: seq<Manifest>, name: string, d: string) {
    exists m :: Current(metadata, name, m) && Declares(metadata, m, d)
  }

  lemma NodeMeans(metadata: seq<Manifest>, published: set<string>, name: string)
    ensures var ws := GraphOf(metadata, published);
            && (name in ws.packages <==> exists m :: Current(metadata, name, m))
            && (Outstanding(ws, name) <==> ToPublish(metadata, published, name))
            && (Available(ws, name) <==> Usable(metadata, published, name))
            && (name in ws.packages ==> (IsPublished(ws, name) <==> Released(metadata, published, name)))
  {
    var packages := ByName(metadata);
    if name in packages { CurrentIff(metadata, name, packages[name]); }
    forall m | Current(metadata, name, m) ensures name in packages && packages[name] == m {
      CurrentIff(metadata, name, m);
    }
  }

  lemma DepsMean(metadata: seq<Manifest>, published: set<string>, name: string, d: string)
    ensures var ws := GraphOf(metadata, published);
            (name in ws.packages && d in Deps(ws, name)) <==> Requires(metadata, name, d)
  {
    var packages := ByName(metadata);
    if name in packages {
      CurrentIff(metadata, name, packages[name]);
      InternalIff(metadata, packages[name], d);
    }
    forall m | Current(metadata, name, m) ensures name in packages && packages[name] == m {
      CurrentIff(metadata, name, m);
    }
  }

  // ----- The plan -----

  /**
   A returned plan names exactly the packages that ship and are not in the registry, each
   once; every prerequisite that one of them declares is in the registry or stands before it.
   */
  lemma PlanMeans(metadata: seq<Manifest>, published: set<string>)
    requires Plan(metadata, published).Ok?
    ensures var plan := Plan(metadata, published).value;
            && (forall n :: n in plan <==> ToPublish(metadata, published, n))
            && (forall i, j :: 0 <= i < j < |plan| ==> plan[i] != plan[j])
            && (forall i, d :: 0 <= i < |plan| && Requires(metadata, plan[i], d) ==>
                  Released(metadata, published, d) || d in plan[..i])
  {
    var ws, plan := GraphOf(metadata, published), Plan(metadata, published).value;
    PlanIsExact(metadata, published);
    forall n ensures n in plan <==> ToPublish(metadata, published, n) { NodeMeans(metadata, published, n); }
    forall i, d | 0 <= i < |plan| && Requires(metadata, plan[i], d)
      ensures Released(metadata, published, d) || d in plan[..i]
    {
      DepsMean(metadata, published, plan[i], d);
      assert Satisfied(ws, plan[..i], plan[i]);
      NodeMeans(metadata, published, d);
    }
  }

  /** A closed walk through packages to publish, each a declared prerequisite of the one before. */
  ghost predicate DeclaredCycle(metadata: seq<Manifest>, published: set<string>, c: seq<string>) {
    && c != []
    && (forall i :: 0 <= i < |c| ==> ToPublish(metadata, published, c[i]))
    && (forall i :: 0 < i < |c| ==> Requires(metadata, c[i - 1], c[i]))
    && Requires(metadata, c[|c| - 1], c[0])
  }

  lemma CycleMeans(metadata: seq<Manifest>, published: set<string>, c: seq<string>)
    ensures IsCycle(GraphOf(metadata, published), c) <==> DeclaredCycle(metadata, published, c)
  {
    forall i | 0 <= i < |c|
      ensures Outstanding(GraphOf(metadata, published), c[i]) <==> ToPublish(metadata, published, c[i])
    {
      NodeMeans(metadata, published, c[i]);
    }
    forall i | 0 < i < |c| && Outstanding(GraphOf(metadata, published), c[i - 1])
      ensures c[i] in Deps(GraphOf(metadata, published), c[i - 1]) <==> Requires(metadata, c[i - 1], c[i])
    {
      DepsMean(metadata, published, c[i - 1], c[i]);
    }
    if c != [] { DepsMean(metadata, published, c[|c| - 1], c[0]); }
  }

  /**
   A plan is returned if and only if `tapid` is present and usable, every prerequisite that a
   package to publish declares is usable, and no such package needs itself.
   */
  lemma PlanExistsMeans(metadata: seq<Manifest>, published: set<string>)
    ensures Plan(metadata, published).Ok?
            <==> && Usable(metadata, published, "tapid")
                 && (forall n, d :: ToPublish(metadata, published, n) && Requires(metadata, n, d) ==>
                       Usable(metadata, published, d))
                 && (forall c :: !DeclaredCycle(metadata, published, c))
  {
    var ws := GraphOf(metadata, published);
    PlanExistsIff(metadata, published);
    NodeMeans(metadata, published, TAPID);
    CompleteMeans(metadata, published);
    forall c ensures IsCycle(ws, c) <==> DeclaredCycle(metadata, published, c) { CycleMeans(metadata, published, c); }
  }

  lemma CompleteMeans(metadata: seq<Manifest>, published: set<string>)
    ensures Complete(GraphOf(metadata, published))
            <==> forall n, d :: ToPublish(metadata, published, n) && Requires(metadata, n, d) ==>
                   Usable(metadata, published, d)
  {
    var ws := GraphOf(metadata, published);
    if Complete(ws) {
      forall n, d | ToPublish(metadata, published, n) && Requires(metadata, n, d)
        ensures Usable(metadata, published, d)
      {
        NodeMeans(metadata, published, n);
        DepsMean(metadata, published, n, d);
        NodeMeans(metadata, published, d);
      }
    } else {
      var n, d :| Outstanding(ws, n) && d in Deps(ws, n) && !Available(ws, d);
      NodeMeans(metadata, published, n);
      DepsMean(metadata, published, n, d);
      NodeMeans(metadata, published, d);
    }
  }

  // ----- The errors -----

  /** What an error says about the graph. */
  ghost predicate Justified(ws: Workspace, e: PublishError) {
    match e
    case MissingPackage(n) => n !in ws.packages
    case NotPublishable(n) => n in ws.packages && !IsPublished(ws, n) && !ws.packages[n].publishable
    case DependencyCycle(n) => exists c :: IsCycle(ws, c) && c[0] == n
  }

  lemma {:induction false} VisitErrors(ws: Workspace, name: string, b: Book, stack: seq<string>)
    requires IsStack(ws, stack, b.visiting) && (stack != [] ==> name in Deps(ws, stack[|stack| - 1]))
    requires Visit(ws, name, b).Err?
    ensures Justified(ws, Visit(ws, name, b).error)
    decreases Unentered(ws, b), 0
  {
    if name in ws.packages && !IsPublished(ws, name) {
      if name in b.visiting {
        StackCycle(ws, name, b.visiting, stack);
      } else if ws.packages[name].publishable {
        EnteringDecreases(ws, b, name);
        StackGrows(ws, name, b.visiting, stack);
        VisitAllErrors(ws, Deps(ws, name), b.(visiting := b.visiting + {name}), stack + [name]);
      }
    }
  }

  lemma {:induction false} VisitAllErrors(ws: Workspace, names: seq<string>, b: Book, stack: seq<string>)
    requires IsStack(ws, stack, b.visiting)
    requires forall n :: n in names && stack != [] ==> n in Deps(ws, stack[|stack| - 1])
    requires VisitAll(ws, names, b).Err?
    ensures Justified(ws, VisitAll(ws, names, b).error)
    decreases Unentered(ws, b), |names|
  {
    assert names[0] in names;
    if Visit(ws, names[0], b).Err? {
      VisitErrors(ws, names[0], b, stack);
    } else {
      assert forall n :: n in names[1..] ==> n in names;
      VisitAllErrors(ws, names[1..], Visit(ws, names[0], b).value, stack);
    }
  }

  lemma StackCycle(ws: Workspace, name: string, visiting: set<string>, stack: seq<string>)
    requires IsStack(ws, stack, visiting) && name in visiting
    requires stack != [] ==> name in Deps(ws, stack[|stack| - 1])
    ensures exists c :: IsCycle(ws, c) && c[0] == name
  {
    var i :| 0 <= i < |stack| && stack[i] == name;
    var c := stack[i..];
    forall j | 0 < j < |c| ensures c[j] in Deps(ws, c[j - 1]) {
      assert c[j] == stack[i + j] && c[j - 1] == stack[i + j - 1];
    }
    assert c[|c| - 1] == stack[|stack| - 1];
    assert IsCycle(ws, c);
  }

  /** What an error says about the metadata. */
  ghost predicate Reported(metadata: seq<Manifest>, published: set<string>, e: PublishError) {
    match e
    case MissingPackage(n) => forall m :: !Current(metadata, n, m)
    case NotPublishable(n) => exists m :: Current(metadata, n, m) && !Ships(m) && !InRegistry(m, published)
    case DependencyCycle(n) => exists c :: DeclaredCycle(metadata, published, c) && c[0] == n
  }

  lemma JustifiedIsReported(metadata: seq<Manifest>, published: set<string>, e: PublishError)
    requires Justified(GraphOf(metadata, published), e)
    ensures Reported(metadata, published, e)
  {
    match e
    case MissingPackage(n) =>
      forall m ensures !Current(metadata, n, m) { CurrentIff(metadata, n, m); }
    case NotPublishable(n) =>
      CurrentIff(metadata, n, ByName(metadata)[n]);
    case DependencyCycle(n) =>
      var c :| IsCycle(GraphOf(metadata, published), c) && c[0] == n;
      CycleMeans(metadata, published, c);
  }

  /** Each error names a package that really is missing, not publishable, or on a cycle. */
  lemma PlanErrorMeans(metadata: seq<Manifest>, published: set<string>)
    requires Plan(metadata, published).Err?
    ensures Reported(metadata, published, Plan(metadata, published).error)
  {
    if TAPID in ByName(metadata) {
      VisitAllErrors(GraphOf(metadata, published), Itinerary(metadata), START, []);
    }
    JustifiedIsReported(metadata, published, Plan(metadata, published).error);
  }

  // ----- The order of the plan -----

  /**
   The plain traversal: everything a package needs, then the package, each as often as it
   is met. It looks at nothing but the path it is on.
   */
  ghost function Traverse(ws: Workspace, name: string, path: set<string>): seq<string>
    decreases |ws.packages.Keys - path|, 0
  {
    if !Outstanding(ws, name) || name in path then []
    else
      assert ws.packages.Keys - path == (ws.packages.Keys - (path + {name})) + {name};
      TraverseAll(ws, Deps(ws, name), path + {name}) + [name]
  }

  ghost function TraverseAll(ws: Workspace, names: seq<string>, path: set<string>): seq<string>
    decreases |ws.packages.Keys - path|, |names|
  {
    if names == [] then [] else Traverse(ws, names[0], path) + TraverseAll(ws, names[1..], path)
  }

  /** `done` with the elements of `more` that it does not have, at their first occurrence. */
  ghost function FirstOccurrences(done: seq<string>, more: seq<string>): seq<string>
    decreases |more|
  {
    if more == [] then done
    else FirstOccurrences(if more[0] in done then done else done + [more[0]], more[1..])
  }

  lemma {:induction false} OccurrencesAppend(done: seq<string>, a: seq<string>, b: seq<string>)
    ensures FirstOccurrences(done, a + b) == FirstOccurrences(FirstOccurrences(done, a), b)
    decreases |a|
  {
    if a == [] {
      assert a + b == b;
    } else {
      assert (a + b)[1..] == a[1..] + b;
      OccurrencesAppend(if a[0] in done then done else done + [a[0]], a[1..], b);
    }
  }

  lemma {:induction false} NothingNew(done: seq<string>, more: seq<string>)
    requires forall n :: n in more ==> n in done
    ensures FirstOccurrences(done, more) == done
    decreases |more|
  {
    if more != [] {
      assert more[0] in more;
      NothingNew(done, more[1..]);
    }
  }

  /** Everything a visited package leads to has been put in the order. */
  lemma {:induction false} VisitedIsDone(ws: Workspace, b: Book, name: string, path: set<string>)
    requires Good(ws, b) && (name in b.visited || name !in ws.packages || IsPublished(ws, name))
    ensures forall n :: n in Traverse(ws, name, path) ==> n in b.ordered
    decreases |ws.packages.Keys - path|, 0
  {
    if Outstanding(ws, name) && name !in path {
      assert ws.packages.Keys - path == (ws.packages.Keys - (path + {name})) + {name};
      var i :| 0 <= i < |b.ordered| && b.ordered[i] == name;
      assert Satisfied(ws, b.ordered[..i], name);
      forall d | d in Deps(ws, name) ensures d in b.visited || IsPublished(ws, d) {
        if !IsPublished(ws, d) { assert d in b.ordered[..i] && d in b.ordered; }
      }
      VisitedAllDone(ws, b, Deps(ws, name), path + {name});
    }
  }

  lemma {:induction false} VisitedAllDone(ws: Workspace, b: Book, names: seq<string>, path: set<string>)
    requires Good(ws, b)
    requires forall n :: n in names ==> n in b.visited || n !in ws.packages || IsPublished(ws, n)
    ensures forall n :: n in TraverseAll(ws, names, path) ==> n in b.ordered
    decreases |ws.packages.Keys - path|, |names|
  {
    if names != [] {
      assert names[0] in names && forall n :: n in names[1..] ==> n in names;
      VisitedIsDone(ws, b, names[0], path);
      VisitedAllDone(ws, b, names[1..], path);
    }
  }

  /** A visit with its books is the plain traversal with repetitions dropped. */
  lemma {:induction false} VisitTraverses(ws: Workspace, name: string, b: Book)
    requires Good(ws, b) && Visit(ws, name, b).Ok?
    ensures Visit(ws, name, b).value.ordered == FirstOccurrences(b.ordered, Traverse(ws, name, b.visiting))
    decreases Unentered(ws, b), 0
  {
    if name in b.visited || IsPublished(ws, name) {
      VisitedIsDone(ws, b, name, b.visiting);
      NothingNew(b.ordered, Traverse(ws, name, b.visiting));
    } else {
      EnteringDecreases(ws, b, name);
      var entered := b.(visiting := b.visiting + {name});
      VisitAllTraverses(ws, Deps(ws, name), entered);
      VisitAllKeeps(ws, Deps(ws, name), entered);
      var inner := VisitAll(ws, Deps(ws, name), entered).value;
      assert name !in inner.ordered;
      OccurrencesAppend(b.ordered, TraverseAll(ws, Deps(ws, name), entered.visiting), [name]);
      assert FirstOccurrences(inner.ordered, [name]) == inner.ordered + [name];
    }
  }

  lemma {:induction false} VisitAllTraverses(ws: Workspace, names: seq<string>, b: Book)
    requires Good(ws, b) && VisitAll(ws, names, b).Ok?
    ensures VisitAll(ws, names, b).value.ordered == FirstOccurrences(b.ordered, TraverseAll(ws, names, b.visiting))
    decreases Unentered(ws, b), |names|
  {
    if names != [] {
      VisitTraverses(ws, names[0], b);
      VisitKeeps(ws, names[0], b);
      var c := Visit(ws, names[0], b).value;
      VisitAllTraverses(ws, names[1..], c);
      OccurrencesAppend(b.ordered, Traverse(ws, names[0], b.visiting), TraverseAll(ws, names[1..], b.visiting));
    }
  }

  ghost predicate IsRoot(metadata: seq<Manifest>, name: string) {
    name != "tapid" && exists m :: Current(metadata, name, m) && Ships(m)
  }

  /** The shipping packages but `tapid`, in text order, and then `tapid`. */
  ghost predicate IsItinerary(metadata: seq<Manifest>, names: seq<string>) {
    && names != [] && names[|names| - 1] == "tapid"
    && StrictlySorted(TextLe, names[..|names| - 1])
    && forall n :: n in names[..|names| - 1] <==> IsRoot(metadata, n)
  }

  lemma ItineraryMeans(metadata: seq<Manifest>)
    ensures IsItinerary(metadata, Itinerary(metadata))
  {
    var packages := ByName(metadata);
    var roots := RootNames(packages, metadata);
    assert Itinerary(metadata)[..|roots|] == roots;
    TextOrder();
    CanonicalStrict(TextLe, Candidates(packages, metadata));
    CanonicalElements(TextLe, Candidates(packages, metadata));
    forall n ensures n in roots <==> IsRoot(metadata, n) {
      RootMeans(metadata, n);
    }
  }

  lemma RootMeans(metadata: seq<Manifest>, n: string)
    ensures n in Candidates(ByName(metadata), metadata)
            <==> IsRoot(metadata, n)
  {
    var packages := ByName(metadata);
    if n in packages {
      CurrentIff(metadata, n, packages[n]);
      var i :| 0 <= i < |metadata| && metadata[i] == packages[n];
      assert metadata[i].name == n;
    }
    forall m | Current(metadata, n, m) ensures n in packages && packages[n] == m { CurrentIff(metadata, n, m); }
  }

  /**
   The order is fixed: the plan is the plain traversal from the shipping packages in text
   order and `tapid` at the end, prerequisites in text order, with repetitions dropped.
   */
  lemma PlanIsTraversal(metadata: seq<Manifest>, published: set<string>)
    requires Plan(metadata, published).Ok?
    ensures IsItinerary(metadata, Itinerary(metadata))
    ensures Plan(metadata, published).value
            == FirstOccurrences([], TraverseAll(GraphOf(metadata, published), Itinerary(metadata), {}))
    ensures forall n :: n in GraphOf(metadata, published).packages ==>
              Sorted(TextLe, Deps(GraphOf(metadata, published), n))
  {
    ItineraryMeans(metadata);
    VisitAllTraverses(GraphOf(metadata, published), Itinerary(metadata), START);
    forall n | n in GraphOf(metadata, published).packages
      ensures Sorted(TextLe, Deps(GraphOf(metadata, published), n))
    {
      InternalSorted(ByName(metadata)[n], ByName(metadata));
    }
  }
}
