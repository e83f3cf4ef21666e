/** What a returned layout plan guarantees, stated on the planner's own input. */
module LayoutTheorems {
  import opened Wrappers
  import opened Ordering
  import opened LayoutModel
  import opened LayoutRun
  import opened LayoutResolution
  import opened LayoutBookkeeping
  import opened LayoutPlanner

  // ----- Write-once placements and activation -----

  ghost predicate DistinctTargets(s: seq<ActivationStep>) {
    forall i, j :: 0 <= i < j < |s| ==> s[i].target != s[j].target
  }

  lemma InsertedIsOldOrNew(le: (ActivationStep, ActivationStep) -> bool, x: ActivationStep, s: seq<ActivationStep>,
                           y: ActivationStep)
    requires y in Insert(le, x, s)
    ensures y == x || y in s
  {
    assert y in multiset(Insert(le, x, s));
    assert y in multiset([x] + s);
    assert y in [x] + s;
  }

  lemma {:induction false} InsertDistinct(le: (ActivationStep, ActivationStep) -> bool, x: ActivationStep,
                                          s: seq<ActivationStep>)
    requires DistinctTargets(s) && forall y :: y in s ==> y.target != x.target
    ensures DistinctTargets(Insert(le, x, s))
  {
    if s != [] && !le(x, s[0]) {
      InsertDistinct(le, x, s[1..]);
      var rest := Insert(le, x, s[1..]);
      forall y | y in rest ensures y.target != s[0].target {
        InsertedIsOldOrNew(le, x, s[1..], y);
        if y != x {
          var j :| 0 <= j < |s[1..]| && s[1..][j] == y;
          assert s[j + 1] == y;
        }
      }
    }
  }

  lemma {:induction false} SortDistinct(le: (ActivationStep, ActivationStep) -> bool, s: seq<ActivationStep>)
    requires DistinctTargets(s)
    ensures DistinctTargets(Sort(le, s))
  {
    if s != [] {
      SortDistinct(le, s[1..]);
      SortElements(le, s[1..]);
      forall y | y in Sort(le, s[1..]) ensures y.target != s[0].target {
        var j :| 0 <= j < |s[1..]| && s[1..][j] == y;
        assert s[j + 1] == y;
      }
      InsertDistinct(le, s[0], Sort(le, s[1..]));
    }
  }

  lemma SortMirrors(g: Graph, le: (ActivationStep, ActivationStep) -> bool, s: seq<ActivationStep>,
                    placements: map<Path, InstanceKey>)
    requires Mirrors(g, s, placements)
    ensures Mirrors(g, Sort(le, s), placements)
  {
    var t := Sort(le, s);
    SortDistinct(le, s);
    assert forall i, j :: 0 <= i < j < |t| ==> t[i].target != t[j].target;
    SortElements(le, s);
    forall p | p in placements ensures exists a :: a in t && a.target == p {
      var a :| a in s && a.target == p;
      assert a in t;
    }
  }

  lemma {:induction false} StorageOfInstance(instances: seq<Instance>, seen: set<InstanceKey>, x: Instance)
    requires FirstDuplicate(instances, seen).None? && x in instances
    ensures x.key !in seen && x.key in Storage(instances) && Storage(instances)[x.key] == x.storage
  {
    if x != instances[0] {
      assert x in instances[1..];
      StorageOfInstance(instances[1..], seen + {instances[0].key}, x);
    }
  }

  /** The storage table holds exactly each given instance's own storage path. */
  lemma ValidatedStorage(input: Input, reserved: set<Name>, platform: Platform, x: Instance)
    requires Validate(input, reserved, platform).Ok? && x in input.instances
    ensures var g := Validate(input, reserved, platform).value;
            x.key in g.storage && g.storage[x.key] == x.storage
  {
    var sorted := Sort(InstanceLe, input.instances);
    assert x in multiset(input.instances) && x in multiset(sorted);
    StorageOfInstance(sorted, {}, x);
  }

  /** The state that the worklist starts from. */
  ghost function Start(g: Graph, roots: seq<Dependency>): (r: Result<State, PlanError>)
    requires GraphOk(g)
    ensures r.Ok? ==> Seeded(g, r.value)
  {
    SeedKeeps(g, Canonical(DependencyLe, roots), EMPTY);
    Seed(g, Canonical(DependencyLe, roots), EMPTY)
  }

  lemma SearchTables(g: Graph, roots: seq<Dependency>)
    requires GraphOk(g) && Search(g, roots).Ok?
    ensures var st := Search(g, roots).value;
            Inv(g, st) && st.pending == [] && Booked(g, st)
            && forall d :: d in roots ==> [d.name] in st.placements && st.placements[[d.name]] == d.child
  {
    var start := Start(g, roots).value;
    RunKeepsTables(g, start);
    CanonicalElements(DependencyLe, roots);
    forall d | d in roots ensures [d.name] in start.placements && start.placements[[d.name]] == d.child {
      SeedBinds(g, Canonical(DependencyLe, roots), EMPTY, d);
    }
  }

  /**
   Placements are written once: activation targets are pairwise distinct, are
   exactly the placements, carry the storage path of the instance placed there,
   are never a workspace name, and every root name still binds its own child.
   */
  lemma PlanIsWrittenOnce(input: Input, reserved: set<Name>, platform: Platform)
    requires PlanLayout(input, reserved, platform).Ok?
    ensures var g := Validate(input, reserved, platform).value;
            var plan := PlanLayout(input, reserved, platform).value;
            && Mirrors(g, plan.activation, plan.placements)
            && (forall p :: p in plan.placements ==> !Reserved(g, p))
            && (forall d :: d in input.roots ==>
                  [d.name] in plan.placements && plan.placements[[d.name]] == d.child)
  {
    var g := Validate(input, reserved, platform).value;
    var plan := PlanLayout(input, reserved, platform).value;
    SearchTables(g, input.roots);
    var st := Search(g, input.roots).value;
    SortMirrors(g, (a: ActivationStep, b: ActivationStep) => PathLe(a.target, b.target), st.activation, st.placements);
    assert forall p :: p in st.placements ==> PlacementOk(g, p, st.placements[p]);
  }

  // ----- Reachability -----

  ghost predicate IsReachableSet(edges: seq<Edge>, roots: seq<Dependency>, s: set<InstanceKey>) {
    && ContainsReachable(edges, roots, s)
    && forall t :: ContainsReachable(edges, roots, t) ==> s <= t
  }

  /** `s` holds every root child and is closed under edges. */
  ghost predicate ContainsReachable(edges: seq<Edge>, roots: seq<Dependency>, s: set<InstanceKey>) {
    && (forall d :: d in roots ==> d.child in s)
    && (forall e :: e in edges && e.parent in s ==> e.dependency.child in s)
  }

  lemma SearchIsReachability(input: Input, reserved: set<Name>, platform: Platform)
    requires Validate(input, reserved, platform).Ok?
    requires Search(Validate(input, reserved, platform).value, input.roots).Ok?
    ensures IsReachableSet(input.edges, input.roots,
                           Search(Validate(input, reserved, platform).value, input.roots).value.reachable)
  {
    var g := Validate(input, reserved, platform).value;
    var st := Search(g, input.roots).value;
    SearchTables(g, input.roots);
    FinishedIsClosed(g, st);
    forall d | d in input.roots ensures d.child in st.reachable {
      assert st.placements[[d.name]] == d.child;
    }
    forall e | e in input.edges && e.parent in st.reachable ensures e.dependency.child in st.reachable {
      assert Edge(e.parent, e.dependency) == e;
      assert e.dependency in ChildrenOf(g, e.parent);
    }
    forall t | ContainsReachable(input.edges, input.roots, t) ensures st.reachable <= t {
      CanonicalElements(DependencyLe, input.roots);
      SeedWithin(g, Canonical(DependencyLe, input.roots), EMPTY, t);
      forall k, dep | k in t && dep in ChildrenOf(g, k) ensures dep.child in t {
        assert Edge(k, dep) in input.edges;
      }
      RunStaysWithin(g, Start(g, input.roots).value, t);
    }
  }

  /** A returned plan places exactly the instances reachable from the roots, and each of them. */
  lemma PlanReachesExactly(input: Input, reserved: set<Name>, platform: Platform)
    requires PlanLayout(input, reserved, platform).Ok?
    ensures var plan := PlanLayout(input, reserved, platform).value;
            && IsReachableSet(input.edges, input.roots, plan.reachable)
            && plan.reachable == plan.placements.Values
            && forall e :: e in input.edges ==> e.parent in plan.reachable
  {
    SearchIsReachability(input, reserved, platform);
    SearchTables(Validate(input, reserved, platform).value, input.roots);
    SortElements(EdgeLe, input.edges);
  }

  /**
   Once the worklist has finished, the only failure left is an unreachable parent:
   it is reported exactly when some edge starts outside the reachable set.
   */
  lemma UnknownParentIff(input: Input, reserved: set<Name>, platform: Platform)
    requires Validate(input, reserved, platform).Ok?
    requires Search(Validate(input, reserved, platform).value, input.roots).Ok?
    ensures var r := PlanLayout(input, reserved, platform);
            var reachable := Search(Validate(input, reserved, platform).value, input.roots).value.reachable;
            && IsReachableSet(input.edges, input.roots, reachable)
            && (r.Err? <==> exists e :: e in input.edges && e.parent !in reachable)
            && (r.Err? ==> r.error.UnknownParent? && r.error.key !in reachable
                           && forall e :: e in input.edges && e.parent !in reachable ==> r.error.key <= e.parent)
  {
    SearchIsReachability(input, reserved, platform);
    SortElements(EdgeLe, input.edges);
    Orders();
    SortSorted(EdgeLe, input.edges);
    FirstUnreachedIsLeast(Search(Validate(input, reserved, platform).value, input.roots).value.reachable,
                          Sort(EdgeLe, input.edges));
  }

  lemma {:induction false} FirstUnreachedIsLeast(reachable: set<InstanceKey>, edges: seq<Edge>)
    requires Sorted(EdgeLe, edges)
    ensures var r := FirstUnreached(reachable, edges);
            r.Some? ==> forall e :: e in edges && e.parent !in reachable ==> r.value <= e.parent
  {
    if edges != [] {
      if edges[0].parent in reachable {
        FirstUnreachedIsLeast(reachable, edges[1..]);
      } else {
        forall e | e in edges ensures edges[0].parent <= e.parent {
          var i :| 0 <= i < |edges| && edges[i] == e;
          assert i > 0 ==> EdgeLe(edges[0], edges[i]);
        }
      }
    }
  }

  // ----- Resolution in the final layout -----

  /** Every import named `name` of every placed package finds its locked child. */
  ghost predicate FinallyResolves(g: Graph, edges: seq<Edge>, plan: LayoutPlan, name: Name) {
    forall from, dep :: from in plan.placements && Edge(plan.placements[from], dep) in edges && dep.name == name
                        ==> Resolves(g, plan.placements, from, dep)
  }

  /** Final theorem for a run that never shadows `name` late. */
  lemma PlanResolvesUnshadowed(input: Input, reserved: set<Name>, platform: Platform, name: Name)
    requires PlanLayout(input, reserved, platform).Ok?
    requires var g := Validate(input, reserved, platform).value;
             NeverShadowedLate(g, Start(g, input.roots).value, name)
    ensures FinallyResolves(Validate(input, reserved, platform).value, input.edges,
                            PlanLayout(input, reserved, platform).value, name)
  {
    var g := Validate(input, reserved, platform).value;
    var start := Start(g, input.roots).value;
    assert Settled(g, start, name);
    RunResolves(g, start, name);
    var plan := PlanLayout(input, reserved, platform).value;
    forall from, dep | from in plan.placements && Edge(plan.placements[from], dep) in input.edges && dep.name == name
      ensures Resolves(g, plan.placements, from, dep) {
      assert EdgeAt(g, Run(g, start).value, from, dep);
    }
  }

  /** No turn after its own shadows an edge named `name`, or the last one to do so places its child. */
  ghost predicate EndsUnshadowed(g: Graph, roots: seq<Dependency>, edges: seq<Edge>, plan: LayoutPlan, name: Name)
    requires GraphOk(g) && Start(g, roots).Ok?
  {
    forall from, dep :: from in plan.placements && Edge(plan.placements[from], dep) in edges && dep.name == name
                        ==> LastShadow(g, Start(g, roots).value, from, dep) in {None, Some(dep.child)}
  }

  /**
   Exact for the returned plan: every import of `name` finds its locked child if and only
   if each such edge ends unshadowed.
   */
  lemma PlanResolvesIff(input: Input, reserved: set<Name>, platform: Platform, name: Name)
    requires PlanLayout(input, reserved, platform).Ok?
    ensures FinallyResolves(Validate(input, reserved, platform).value, input.edges,
                            PlanLayout(input, reserved, platform).value, name)
            <==> EndsUnshadowed(Validate(input, reserved, platform).value, input.roots, input.edges,
                                PlanLayout(input, reserved, platform).value, name)
  {
    var g := Validate(input, reserved, platform).value;
    var plan := PlanLayout(input, reserved, platform).value;
    forall from, dep | from in plan.placements && Edge(plan.placements[from], dep) in input.edges && dep.name == name
      ensures Resolves(g, plan.placements, from, dep)
              <==> LastShadow(g, Start(g, input.roots).value, from, dep) in {None, Some(dep.child)} {
      PlanEdgeIff(input, reserved, platform, from, dep);
    }
  }

  lemma PlanEdgeIff(input: Input, reserved: set<Name>, platform: Platform, from: Path, dep: Dependency)
    requires PlanLayout(input, reserved, platform).Ok?
    requires var plan := PlanLayout(input, reserved, platform).value;
             from in plan.placements && Edge(plan.placements[from], dep) in input.edges
    ensures var g := Validate(input, reserved, platform).value;
            Resolves(g, PlanLayout(input, reserved, platform).value.placements, from, dep)
            <==> LastShadow(g, Start(g, input.roots).value, from, dep) in {None, Some(dep.child)}
  {
    var g := Validate(input, reserved, platform).value;
    var start := Start(g, input.roots).value;
    assert !Finished(g, start, from, dep);
    assert EdgeAt(g, Run(g, start).value, from, dep);
    RunResolvesIff(g, start, from, dep);
  }

  /** A caller can check this before planning: all edges of the name lead to one instance. */
  ghost predicate BoundOnce(edges: seq<Edge>, name: Name, key: InstanceKey) {
    forall e :: e in edges && e.dependency.name == name ==> e.dependency.child == key
  }

  /**
   Imports of a name with one identity among the edges always resolve, also where the
   roots bind the name to another instance or a workspace link reserves it.
   */
  lemma PlanResolvesBoundOnce(input: Input, reserved: set<Name>, platform: Platform, name: Name, key: InstanceKey)
    requires PlanLayout(input, reserved, platform).Ok?
    requires BoundOnce(input.edges, name, key)
    ensures FinallyResolves(Validate(input, reserved, platform).value, input.edges,
                            PlanLayout(input, reserved, platform).value, name)
  {
    var g := Validate(input, reserved, platform).value;
    var start := Start(g, input.roots).value;
    forall p, d | p in g.children && d in g.children[p] && d.name == name ensures d.child == key {
      assert d in ChildrenOf(g, p);
      assert Edge(p, d) in input.edges && Edge(p, d).dependency == d;
    }
    assert Settled(g, start, name);
    OneIdentityRun(g, start, name, key);
    PlanResolvesUnshadowed(input, reserved, platform, name);
  }

  // ----- Determinism -----

  ghost predicate SameElements<T(!new)>(a: seq<T>, b: seq<T>) {
    forall x :: x in a <==> x in b
  }

  lemma {:induction false} FirstUnknownDedup(known: set<InstanceKey>, edges: seq<Edge>)
    ensures FirstUnknown(known, Dedup(edges)) == FirstUnknown(known, edges)
  {
    if |edges| >= 2 {
      FirstUnknownDedup(known, edges[1..]);
      if edges[0] != edges[1] { assert Dedup(edges)[1..] == Dedup(edges[1..]); }
    }
  }

  lemma {:induction false} FirstUnreachedDedup(reachable: set<InstanceKey>, edges: seq<Edge>)
    ensures FirstUnreached(reachable, Dedup(edges)) == FirstUnreached(reachable, edges)
  {
    if |edges| >= 2 {
      FirstUnreachedDedup(reachable, edges[1..]);
      if edges[0] != edges[1] { assert Dedup(edges)[1..] == Dedup(edges[1..]); }
    }
  }

  lemma ChildrenFromElements(a: seq<Edge>, b: seq<Edge>, p: InstanceKey)
    requires SameElements(a, b)
    ensures Canonical(DependencyLe, DependenciesOf(a, p)) == Canonical(DependencyLe, DependenciesOf(b, p))
  {
    Orders();
    forall d ensures d in DependenciesOf(a, p) <==> d in DependenciesOf(b, p) {
      DependenciesOfElements(a, p, d);
      DependenciesOfElements(b, p, d);
    }
    CanonicalUnique(DependencyLe, DependenciesOf(a, p), DependenciesOf(b, p));
  }

  lemma NamesFromElements(a: seq<Edge>, b: seq<Edge>)
    requires SameElements(a, b)
    ensures Canonical(TextLe, NamesOf(a)) == Canonical(TextLe, NamesOf(b))
  {
    TextOrder();
    forall n ensures n in NamesOf(a) <==> n in NamesOf(b) {
      NamesOfElements(a, n);
      NamesOfElements(b, n);
    }
    CanonicalUnique(TextLe, NamesOf(a), NamesOf(b));
  }

  lemma ParentsFromElements(a: seq<Edge>, b: seq<Edge>)
    requires SameElements(a, b)
    ensures Parents(a) == Parents(b)
  {
  }

  lemma ChildrenMapFromElements(a: seq<Edge>, b: seq<Edge>)
    requires SameElements(a, b)
    ensures ChildrenMap(a) == ChildrenMap(b)
  {
    ParentsFromElements(a, b);
    forall p | p in ChildrenMap(b) ensures Canonical(DependencyLe, DependenciesOf(a, p)) == ChildrenMap(b)[p] {
      ChildrenFromElements(a, b, p);
    }
    ChildrenAre(a, ChildrenMap(b));
  }

  lemma InstancesFromElements(a: seq<Instance>, b: seq<Instance>)
    requires multiset(a) == multiset(b)
    ensures Sort(InstanceLe, a) == Sort(InstanceLe, b)
  {
    Orders();
    SortUnique(InstanceLe, a, b);
  }

  lemma RootsFromElements(a: seq<Dependency>, b: seq<Dependency>)
    requires SameElements(a, b)
    ensures Canonical(DependencyLe, a) == Canonical(DependencyLe, b)
  {
    Orders();
    CanonicalUnique(DependencyLe, a, b);
  }

  lemma EdgesFromElements(a: seq<Edge>, b: seq<Edge>)
    requires SameElements(a, b)
    ensures Dedup(Sort(EdgeLe, a)) == Dedup(Sort(EdgeLe, b))
    ensures SameElements(Sort(EdgeLe, a), Sort(EdgeLe, b))
  {
    Orders();
    CanonicalUnique(EdgeLe, a, b);
    SortElements(EdgeLe, a);
    SortElements(EdgeLe, b);
  }

  lemma GraphFromElements(kind: LinkKind, instances: seq<Instance>, a: seq<Edge>, b: seq<Edge>, reserved: set<Name>)
    requires SameElements(a, b)
    ensures BuildGraph(kind, instances, Sort(EdgeLe, a), reserved)
            == BuildGraph(kind, instances, Sort(EdgeLe, b), reserved)
  {
    EdgesFromElements(a, b);
    NamesFromElements(Sort(EdgeLe, a), Sort(EdgeLe, b));
    ChildrenMapFromElements(Sort(EdgeLe, a), Sort(EdgeLe, b));
  }

  lemma UnknownFromElements(known: set<InstanceKey>, a: seq<Edge>, b: seq<Edge>)
    requires SameElements(a, b)
    ensures FirstUnknown(known, Sort(EdgeLe, a)) == FirstUnknown(known, Sort(EdgeLe, b))
  {
    EdgesFromElements(a, b);
    FirstUnknownDedup(known, Sort(EdgeLe, a));
    FirstUnknownDedup(known, Sort(EdgeLe, b));
  }

  lemma ValidateIgnoresOrder(a: Input, b: Input, reserved: set<Name>, platform: Platform)
    requires multiset(a.instances) == multiset(b.instances) && SameElements(a.edges, b.edges)
    ensures Validate(a, reserved, platform) == Validate(b, reserved, platform)
  {
    InstancesFromElements(a.instances, b.instances);
    CheckedFromElements(KindOf(platform), Sort(InstanceLe, a.instances), a.edges, b.edges, reserved);
  }

  lemma CheckedFromElements(kind: Option<LinkKind>, instances: seq<Instance>, a: seq<Edge>, b: seq<Edge>,
                            reserved: set<Name>)
    requires SameElements(a, b)
    ensures Checked(kind, instances, Sort(EdgeLe, a), reserved) == Checked(kind, instances, Sort(EdgeLe, b), reserved)
  {
    UnknownFromElements(Storage(instances).Keys, a, b);
    if kind.Some? { GraphFromElements(kind.value, instances, a, b, reserved); }
    CheckedAlike(kind, instances, Sort(EdgeLe, a), Sort(EdgeLe, b), reserved);
  }

  lemma CheckedAlike(kind: Option<LinkKind>, instances: seq<Instance>, a: seq<Edge>, b: seq<Edge>, reserved: set<Name>)
    requires FirstUnknown(Storage(instances).Keys, a) == FirstUnknown(Storage(instances).Keys, b)
    requires kind.Some? ==>
             BuildGraph(kind.value, instances, a, reserved) == BuildGraph(kind.value, instances, b, reserved)
    ensures Checked(kind, instances, a, reserved) == Checked(kind, instances, b, reserved)
  {
  }

  /**
   The plan, or the error, depends only on the multiset of instances and on the
   sets of roots and edges: neither order nor repetition can be observed.
   */
  lemma PlanIgnoresOrder(a: Input, b: Input, reserved: set<Name>, platform: Platform)
    requires multiset(a.instances) == multiset(b.instances)
    requires SameElements(a.roots, b.roots) && SameElements(a.edges, b.edges)
    ensures PlanLayout(a, reserved, platform) == PlanLayout(b, reserved, platform)
  {
    ValidateIgnoresOrder(a, b, reserved, platform);
    if Validate(a, reserved, platform).Ok? {
      var g := Validate(a, reserved, platform).value;
      SearchIgnoresOrder(g, a.roots, b.roots);
      if Search(g, a.roots).Ok? {
        FinishIgnoresOrder(a, b, Search(g, a.roots).value);
      }
    }
  }

  lemma SearchIgnoresOrder(g: Graph, a: seq<Dependency>, b: seq<Dependency>)
    requires GraphOk(g) && SameElements(a, b)
    ensures Search(g, a) == Search(g, b)
  {
    RootsFromElements(a, b);
  }

  lemma FinishIgnoresOrder(a: Input, b: Input, st: State)
    requires multiset(a.instances) == multiset(b.instances) && SameElements(a.edges, b.edges)
    ensures Finish(Sort(InstanceLe, a.instances), Sort(EdgeLe, a.edges), st)
            == Finish(Sort(InstanceLe, b.instances), Sort(EdgeLe, b.edges), st)
  {
    InstancesFromElements(a.instances, b.instances);
    EdgesFromElements(a.edges, b.edges);
    FirstUnreachedDedup(st.reachable, Sort(EdgeLe, a.edges));
    FirstUnreachedDedup(st.reachable, Sort(EdgeLe, b.edges));
  }
}
