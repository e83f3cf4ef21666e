/**
 The planner end to end (`plan_named_layout_inner`) as a function: input validation,
 root placement, the worklist and the final reachability check. Module LayoutLoops
 proves the loops of the source equal to it.
 */
module LayoutPlanner {
  import opened Wrappers
  import opened Ordering
  import opened LayoutModel
  import opened LayoutPaths
  import opened LayoutRun
  import opened LayoutResolution
  import opened LayoutBookkeeping

  datatype Input = Input(instances: seq<Instance>, roots: seq<Dependency>, edges: seq<Edge>)
  datatype Entry = Entry(key: InstanceKey, source: string, target: string)

  /** The materialization plan, with the tables that the planner held when it returned. */
  datatype LayoutPlan = LayoutPlan(
    entries: seq<Entry>,
    activation: seq<ActivationStep>,
    placements: map<Path, InstanceKey>,
    reachable: set<InstanceKey>)

  // ----- Orders -----

  /** Instances by key; equal keys are rejected, so how ties fall never shows. */
  predicate InstanceLe(a: Instance, b: Instance) {
    a.key < b.key || (a.key == b.key
      && if a.tree != b.tree then TextLe(a.tree, b.tree) else TextLe(a.storage, b.storage))
  }

  predicate DependencyLe(a: Dependency, b: Dependency) {
    if a.name != b.name then TextLe(a.name, b.name) else a.child <= b.child
  }

  predicate EdgeLe(a: Edge, b: Edge) {
    a.parent < b.parent || (a.parent == b.parent && DependencyLe(a.dependency, b.dependency))
  }

  /** Component by component, as paths compare. */
  predicate ComponentsLe(a: seq<string>, b: seq<string>) {
    a == [] || (b != [] && if a[0] != b[0] then TextLe(a[0], b[0]) else ComponentsLe(a[1..], b[1..]))
  }

  predicate PathLe(a: Path, b: Path) { ComponentsLe(Render(a), Render(b)) }

  lemma Orders()
    ensures TotalOrder(InstanceLe) && TotalOrder(DependencyLe) && TotalOrder(EdgeLe)
  {
    TextOrder();
  }

  // ----- Validation -----

  function FirstDuplicate(sorted: seq<Instance>, seen: set<InstanceKey>): Option<InstanceKey> {
    if sorted == [] then None
    else if sorted[0].key in seen then Some(sorted[0].key)
    else FirstDuplicate(sorted[1..], seen + {sorted[0].key})
  }

  function Storage(instances: seq<Instance>): map<InstanceKey, string> {
    if instances == [] then map[]
    else Storage(instances[1..])[instances[0].key := instances[0].storage]
  }

  function FirstUnknown(known: set<InstanceKey>, edges: seq<Edge>): (r: Option<InstanceKey>)
    ensures r.None? <==> forall e :: e in edges ==> e.parent in known && e.dependency.child in known
  {
    if edges == [] then None
    else
      assert forall e :: e in edges <==> e == edges[0] || e in edges[1..];
      if edges[0].parent !in known then Some(edges[0].parent)
      else if edges[0].dependency.child !in known then Some(edges[0].dependency.child)
      else FirstUnknown(known, edges[1..])
  }

  function DependenciesOf(edges: seq<Edge>, parent: InstanceKey): seq<Dependency> {
    if edges == [] then []
    else (if edges[0].parent == parent then [edges[0].dependency] else []) + DependenciesOf(edges[1..], parent)
  }

  lemma {:induction false} DependenciesOfElements(edges: seq<Edge>, parent: InstanceKey, d: Dependency)
    ensures d in DependenciesOf(edges, parent) <==> Edge(parent, d) in edges
  {
    if edges != [] {
      assert edges == [edges[0]] + edges[1..];
      DependenciesOfElements(edges[1..], parent, d);
    }
  }

  function NamesOf(edges: seq<Edge>): seq<Name> {
    seq(|edges|, i requires 0 <= i < |edges| => edges[i].dependency.name)
  }

  lemma NamesOfElements(edges: seq<Edge>, n: Name)
    ensures n in NamesOf(edges) <==> exists e :: e in edges && e.dependency.name == n
  {
    if n in NamesOf(edges) {
      var i :| 0 <= i < |NamesOf(edges)| && NamesOf(edges)[i] == n;
      assert edges[i] in edges;
    }
    forall e | e in edges ensures e.dependency.name in NamesOf(edges) {
      var i :| 0 <= i < |edges| && edges[i] == e;
      assert NamesOf(edges)[i] == e.dependency.name;
    }
  }

  function Parents(edges: seq<Edge>): set<InstanceKey> {
    set e | e in edges :: e.parent
  }

  function ChildrenMap(edges: seq<Edge>): map<InstanceKey, seq<Dependency>> {
    map p | p in Parents(edges) :: Canonical(DependencyLe, DependenciesOf(edges, p))
  }

  lemma ChildrenAre(edges: seq<Edge>, children: map<InstanceKey, seq<Dependency>>)
    requires Parents(edges) == children.Keys
    requires forall k :: k in children ==> Canonical(DependencyLe, DependenciesOf(edges, k)) == children[k]
    ensures ChildrenMap(edges) == children
  {
  }

  function BuildGraph(kind: LinkKind, instances: seq<Instance>, edges: seq<Edge>, reserved: set<Name>): Graph {
    Graph(kind,
          Storage(instances),
          ChildrenMap(edges),
          Canonical(TextLe, NamesOf(edges)),
          reserved)
  }

  lemma BuiltChildren(kind: LinkKind, instances: seq<Instance>, edges: seq<Edge>, reserved: set<Name>, k: InstanceKey,
                      d: Dependency)
    ensures d in ChildrenOf(BuildGraph(kind, instances, edges, reserved), k) <==> Edge(k, d) in edges
  {
    var g := BuildGraph(kind, instances, edges, reserved);
    if Edge(k, d) in edges { assert Edge(k, d).parent in Parents(edges); }
    if k in Parents(edges) { assert g.children[k] == Canonical(DependencyLe, DependenciesOf(edges, k)); }
    CanonicalElements(DependencyLe, DependenciesOf(edges, k));
    DependenciesOfElements(edges, k, d);
  }

  lemma BuiltGraphOk(kind: LinkKind, instances: seq<Instance>, edges: seq<Edge>, reserved: set<Name>)
    requires FirstUnknown(Storage(instances).Keys, edges).None?
    ensures GraphOk(BuildGraph(kind, instances, edges, reserved))
    ensures forall k, d :: d in ChildrenOf(BuildGraph(kind, instances, edges, reserved), k) <==> Edge(k, d) in edges
  {
    forall k, d ensures d in ChildrenOf(BuildGraph(kind, instances, edges, reserved), k) <==> Edge(k, d) in edges {
      BuiltChildren(kind, instances, edges, reserved, k, d);
    }
    EdgesAreNamed(edges);
    FitsEdges(BuildGraph(kind, instances, edges, reserved), edges);
  }

  /** A graph made from known, named edges is well formed. */
  lemma FitsEdges(g: Graph, edges: seq<Edge>)
    requires g.children.Keys == Parents(edges)
    requires forall k, d :: d in ChildrenOf(g, k) <==> Edge(k, d) in edges
    requires forall e :: e in edges ==>
             e.parent in g.storage && e.dependency.child in g.storage && e.dependency.name in g.names
    ensures GraphOk(g)
  {
    forall p, d | p in g.children && d in g.children[p] ensures d.child in g.storage && d.name in g.names {
      assert d in ChildrenOf(g, p) && Edge(p, d) in edges;
      assert Edge(p, d).dependency == d;
    }
  }

  lemma EdgesAreNamed(edges: seq<Edge>)
    ensures forall e :: e in edges ==> e.dependency.name in Canonical(TextLe, NamesOf(edges))
  {
    forall e | e in edges ensures e.dependency.name in Canonical(TextLe, NamesOf(edges)) {
      NamesOfElements(edges, e.dependency.name);
      CanonicalElements(TextLe, NamesOf(edges));
    }
  }

  // ----- Roots -----

  function Seed(g: Graph, roots: seq<Dependency>, st: State): Result<State, PlanError> {
    if roots == [] then Ok(st)
    else
      var root := roots[0];
      var target := [root.name];
      if root.child !in g.storage then Err(UnknownInstance(root.child))
      else if Reserved(g, target) then Err(ConflictingTarget(target))
      else if target in st.placements then
        if st.placements[target] != root.child then Err(ConflictingTarget(target))
        else Seed(g, roots[1..], st)
      else Seed(g, roots[1..], SeedOne(g, root, st))
  }

  function SeedOne(g: Graph, root: Dependency, st: State): State
    requires root.child in g.storage
  {
    var placed := Place(g, st, [root.name], root.child);
    placed.(pending := placed.pending + Enqueued(ChildrenOf(g, root.child), [[], [root.name]], {}))
  }

  const EMPTY := State([], map[], [], {})

  // ----- The whole plan -----

  /** The worklist's outcome, after roots have been placed. */
  function Search(g: Graph, roots: seq<Dependency>): Result<State, PlanError>
    requires GraphOk(g)
  {
    SeedKeeps(g, Canonical(DependencyLe, roots), EMPTY);
    var seeded := Seed(g, Canonical(DependencyLe, roots), EMPTY);
    if seeded.Err? then seeded else Run(g, seeded.value)
  }

  /** The smallest parent that was never reached: edges are sorted by parent. */
  function FirstUnreached(reachable: set<InstanceKey>, edges: seq<Edge>): (r: Option<InstanceKey>)
    ensures r.None? <==> forall e :: e in edges ==> e.parent in reachable
    ensures r.Some? ==> r.value !in reachable && exists e :: e in edges && e.parent == r.value
  {
    if edges == [] then None
    else
      assert forall e :: e in edges <==> e == edges[0] || e in edges[1..];
      if edges[0].parent !in reachable then Some(edges[0].parent) else FirstUnreached(reachable, edges[1..])
  }

  function Entries(instances: seq<Instance>): seq<Entry> {
    seq(|instances|, i requires 0 <= i < |instances| =>
      Entry(instances[i].key, instances[i].tree, instances[i].storage))
  }

  function Finish(instances: seq<Instance>, edges: seq<Edge>, st: State): Result<LayoutPlan, PlanError> {
    var missing := FirstUnreached(st.reachable, edges);
    if missing.Some? then Err(UnknownParent(missing.value))
    else Ok(LayoutPlan(Entries(instances),
                       Sort((a: ActivationStep, b: ActivationStep) => PathLe(a.target, b.target), st.activation),
                       st.placements, st.reachable))
  }

  /** Link kind of a platform, or None where links are unsupported. */
  function KindOf(platform: Platform): Option<LinkKind> {
    match platform
    case Unix => Some(Symlink)
    case Windows => Some(Junction)
    case Other => None
  }

  /** The graph of an input that passes validation, or the error the planner reports. */
  function Validate(input: Input, reserved: set<Name>, platform: Platform): (r: Result<Graph, PlanError>)
    ensures r.Ok? ==> GraphOk(r.value) && r.value.reserved == reserved
                      && forall k, d :: d in ChildrenOf(r.value, k) <==> Edge(k, d) in input.edges
  {
    SortElements(EdgeLe, input.edges);
    Checked(KindOf(platform), Sort(InstanceLe, input.instances), Sort(EdgeLe, input.edges), reserved)
  }

  /** Validation of sorted instances and edges. */
  function Checked(kind: Option<LinkKind>, instances: seq<Instance>, edges: seq<Edge>,
                   reserved: set<Name>): (r: Result<Graph, PlanError>)
    ensures r.Ok? ==> GraphOk(r.value) && r.value.reserved == reserved
                      && forall k, d :: d in ChildrenOf(r.value, k) <==> Edge(k, d) in edges
  {
    if kind.None? then Err(UnsupportedPlatform)
    else if FirstDuplicate(instances, {}).Some? then Err(DuplicateInstance(FirstDuplicate(instances, {}).value))
    else if FirstUnknown(Storage(instances).Keys, edges).Some? then
      Err(UnknownInstance(FirstUnknown(Storage(instances).Keys, edges).value))
    else
      BuiltGraphOk(kind.value, instances, edges, reserved);
      Ok(BuildGraph(kind.value, instances, edges, reserved))
  }

  function PlanLayout(input: Input, reserved: set<Name>, platform: Platform): Result<LayoutPlan, PlanError> {
    var graph := Validate(input, reserved, platform);
    if graph.Err? then Err(graph.error)
    else
      var searched := Search(graph.value, input.roots);
      if searched.Err? then Err(searched.error)
      else Finish(Sort(InstanceLe, input.instances), Sort(EdgeLe, input.edges), searched.value)
  }

  // ----- Root placement establishes every invariant -----

  ghost predicate AllPending(g: Graph, st: State) {
    forall from, dep :: EdgeAt(g, st, from, dep) ==> IsPending(st, from, dep)
  }

  /** Root-level placements only, as long as roots are being placed. */
  ghost predicate Seeded(g: Graph, st: State) {
    && Inv(g, st) && Booked(g, st) && AllPending(g, st)
    && (forall p :: p in st.placements ==> |p| == 1)
  }

  lemma SeedOneItems(g: Graph, root: Dependency, st: State)
    requires GraphOk(g) && root.child in g.storage
    requires Inv(g, st) && !Held(g, st.placements, [root.name])
    ensures Inv(g, SeedOne(g, root, st))
  {
    var target := [root.name];
    var next := SeedOne(g, root, st);
    var items := Enqueued(ChildrenOf(g, root.child), [[], target], {});
    assert [[], target] == Prefixes(target) by { assert target[..0] == [] && target[..1] == target; }
    forall i | 0 <= i < |next.pending| ensures ItemOk(g, next.placements, next.pending[i]) {
      if i < |st.pending| {
        assert ItemOk(g, st.placements, st.pending[i]) && next.pending[i] == st.pending[i];
      } else {
        assert next.pending[i] == items[i - |st.pending|];
      }
    }
  }

  lemma SeedOnePending(g: Graph, root: Dependency, st: State)
    requires root.child in g.storage
    requires AllPending(g, st) && [root.name] !in st.placements
    ensures AllPending(g, SeedOne(g, root, st))
  {
    var target := [root.name];
    var deps := ChildrenOf(g, root.child);
    var next := SeedOne(g, root, st);
    forall from, dep | EdgeAt(g, next, from, dep) ensures IsPending(next, from, dep) {
      if from == target {
        var j :| 0 <= j < |deps| && deps[j] == dep;
        assert next.pending[|st.pending| + j] == Item(dep, [[], target], {});
      } else {
        assert EdgeAt(g, st, from, dep);
        var i :| 0 <= i < |st.pending| && st.pending[i].bases != []
                 && ParentPath(st.pending[i]) == from && st.pending[i].dep == dep;
        assert next.pending[i] == st.pending[i];
      }
    }
  }

  lemma SeedOneKeeps(g: Graph, root: Dependency, st: State)
    requires GraphOk(g) && root.child in g.storage
    requires Seeded(g, st) && !Held(g, st.placements, [root.name])
    ensures Seeded(g, SeedOne(g, root, st))
  {
    SeedOneItems(g, root, st);
    SeedOnePending(g, root, st);
    PlaceMirrors(g, st, [root.name], root.child);
    ValuesOfPlace(st.placements, [root.name], root.child);
  }

  /** Root placement keeps the invariants. */
  lemma {:induction false} SeedKeeps(g: Graph, roots: seq<Dependency>, st: State)
    requires GraphOk(g) && Seeded(g, st)
    ensures var r := Seed(g, roots, st);
            r.Ok? ==> Seeded(g, r.value)
  {
    if roots != [] && Seed(g, roots, st).Ok? {
      var root := roots[0];
      if [root.name] in st.placements {
        SeedKeeps(g, roots[1..], st);
      } else {
        SeedOneKeeps(g, root, st);
        SeedKeeps(g, roots[1..], SeedOne(g, root, st));
      }
    }
  }

  /** Root placement moves no root already bound, and binds every root name to its child. */
  lemma {:induction false} SeedExtends(g: Graph, roots: seq<Dependency>, st: State)
    ensures var r := Seed(g, roots, st); r.Ok? ==> Extends(st.placements, r.value.placements)
  {
    if roots != [] && Seed(g, roots, st).Ok? {
      var root := roots[0];
      SeedExtends(g, roots[1..], if [root.name] in st.placements then st else SeedOne(g, root, st));
    }
  }

  lemma {:induction false} SeedBinds(g: Graph, roots: seq<Dependency>, st: State, d: Dependency)
    requires d in roots
    ensures var r := Seed(g, roots, st);
            r.Ok? ==> [d.name] in r.value.placements && r.value.placements[[d.name]] == d.child
  {
    if Seed(g, roots, st).Ok? {
      var root := roots[0];
      var next := if [root.name] in st.placements then st else SeedOne(g, root, st);
      SeedExtends(g, roots[1..], next);
      if d != root {
        assert d in roots[1..];
        SeedBinds(g, roots[1..], next, d);
      }
    }
  }

  lemma {:induction false} SeedWithin(g: Graph, roots: seq<Dependency>, st: State, s: set<InstanceKey>)
    requires st.reachable <= s && forall d :: d in roots ==> d.child in s
    ensures var r := Seed(g, roots, st); r.Ok? ==> r.value.reachable <= s
  {
    if roots != [] && Seed(g, roots, st).Ok? {
      assert forall d :: d in roots[1..] ==> d in roots;
      assert roots[0].child in s;
      if [roots[0].name] in st.placements {
        SeedWithin(g, roots[1..], st, s);
      } else {
        SeedWithin(g, roots[1..], SeedOne(g, roots[0], st), s);
      }
    }
  }
}
