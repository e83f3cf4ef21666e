/**
 The hoisting planner of crates/tapid-linker/src/layout.rs: its inputs, the
 nearest-ancestor lookup it plans for, and one turn of its worklist.

 A placement path lists package names from the project root outwards in, so
 `["a", "b"]` is `node_modules/a/node_modules/b`. Module LayoutPaths relates such
 lists to directory paths. An instance key stands for its rank in the derived
 order of the source's `InstanceKey`: the planner only compares keys.
 */
module LayoutModel {
  import opened Wrappers

  type Name = string
  type InstanceKey = nat
  type Path = seq<Name>

  datatype Dependency = Dependency(name: Name, child: InstanceKey)
  datatype Edge = Edge(parent: InstanceKey, dependency: Dependency)
  datatype Instance = Instance(key: InstanceKey, tree: string, storage: string)
  datatype Platform = Unix | Windows | Other
  datatype LinkKind = Symlink | Junction
  datatype ActivationStep = ActivationStep(kind: LinkKind, source: string, target: Path)

  datatype PlanError =
    | UnsupportedPlatform
    | DuplicateInstance(key: InstanceKey)
    | UnknownInstance(key: InstanceKey)
    | UnknownParent(key: InstanceKey)
    | ConflictingTarget(target: Path)
    | PathOutsideManagedRoot(target: Path)

  /** The validated graph: storage paths, sorted children, sorted lookup names, workspace names. */
  datatype Graph = Graph(
    kind: LinkKind,
    storage: map<InstanceKey, string>,
    children: map<InstanceKey, seq<Dependency>>,
    names: seq<Name>,
    reserved: set<Name>)

  /** An instance together with what every lookup name resolves to from its placement. */
  datatype Seen = Seen(key: InstanceKey, view: seq<Option<InstanceKey>>)
  datatype Item = Item(dep: Dependency, bases: seq<Path>, lineage: set<Seen>)
  datatype State = State(
    pending: seq<Item>,
    placements: map<Path, InstanceKey>,
    activation: seq<ActivationStep>,
    reachable: set<InstanceKey>)

  function ChildrenOf(g: Graph, key: InstanceKey): seq<Dependency> {
    if key in g.children then g.children[key] else []
  }

  predicate Reserved(g: Graph, target: Path) {
    |target| == 1 && target[0] in g.reserved
  }

  // ----- Specification: nearest-ancestor lookup -----

  predicate Held(g: Graph, placements: map<Path, InstanceKey>, target: Path) {
    Reserved(g, target) || target in placements
  }

  /** The directory that an import of `name` from the package at `from` finds. */
  function Resolve(g: Graph, placements: map<Path, InstanceKey>, from: Path, name: Name): Option<Path>
    decreases |from|
  {
    if Held(g, placements, from + [name]) then Some(from + [name])
    else if from == [] then None
    else Resolve(g, placements, from[..|from| - 1], name)
  }

  /** An import of `dep.name` from `from` finds a package, and it is the locked child. */
  predicate Resolves(g: Graph, placements: map<Path, InstanceKey>, from: Path, dep: Dependency) {
    var found := Resolve(g, placements, from, dep.name);
    found.Some? && !Reserved(g, found.value) && found.value in placements
    && placements[found.value] == dep.child
  }

  function Prefixes(path: Path): (bases: seq<Path>)
    ensures |bases| == |path| + 1
    ensures forall i :: 0 <= i <= |path| ==> bases[i] == path[..i]
  {
    seq(|path| + 1, i requires 0 <= i <= |path| => path[..i])
  }

  // ----- One turn of the worklist -----

  /** Innermost base that already holds `name`, or -1. */
  function NearestIndex(g: Graph, placements: map<Path, InstanceKey>, bases: seq<Path>, name: Name): (i: int)
    ensures -1 <= i < |bases|
  {
    if bases == [] then -1
    else if Held(g, placements, bases[|bases| - 1] + [name]) then |bases| - 1
    else NearestIndex(g, placements, bases[..|bases| - 1], name)
  }

  /** First base at or after `from` where `name` is still free, or `|bases|`. */
  function FirstFree(g: Graph, placements: map<Path, InstanceKey>, bases: seq<Path>, name: Name, from: nat): (i: nat)
    requires from <= |bases|
    ensures from <= i <= |bases|
    decreases |bases| - from
  {
    if from == |bases| || !Held(g, placements, bases[from] + [name]) then from
    else FirstFree(g, placements, bases, name, from + 1)
  }

  /** The lookup recorded in a lineage state: placements only, innermost first. */
  function Lookup(placements: map<Path, InstanceKey>, bases: seq<Path>, name: Name): Option<InstanceKey> {
    if bases == [] then None
    else if bases[|bases| - 1] + [name] in placements then Some(placements[bases[|bases| - 1] + [name]])
    else Lookup(placements, bases[..|bases| - 1], name)
  }

  function View(placements: map<Path, InstanceKey>, bases: seq<Path>, names: seq<Name>): (v: seq<Option<InstanceKey>>)
    ensures |v| == |names|
    ensures forall i :: 0 <= i < |names| ==> v[i] == Lookup(placements, bases, names[i])
  {
    seq(|names|, i requires 0 <= i < |names| => Lookup(placements, bases, names[i]))
  }

  function Enqueued(deps: seq<Dependency>, bases: seq<Path>, lineage: set<Seen>): (items: seq<Item>)
    ensures |items| == |deps|
    ensures forall i :: 0 <= i < |deps| ==> items[i] == Item(deps[i], bases, lineage)
  {
    seq(|deps|, i requires 0 <= i < |deps| => Item(deps[i], bases, lineage))
  }

  predicate AllSeen(placements: map<Path, InstanceKey>, bases: seq<Path>, deps: seq<Dependency>) {
    forall i :: 0 <= i < |deps| ==> Lookup(placements, bases, deps[i].name) == Some(deps[i].child)
  }

  /** The item's import is already answered by the locked child. */
  predicate AlreadyResolves(g: Graph, placements: map<Path, InstanceKey>, item: Item) {
    var i := NearestIndex(g, placements, item.bases, item.dep.name);
    i >= 0
    && !Reserved(g, item.bases[i] + [item.dep.name])
    && item.bases[i] + [item.dep.name] in placements
    && placements[item.bases[i] + [item.dep.name]] == item.dep.child
  }

  /** The base chosen for a new placement; `|bases|` means that none is usable. */
  function ChosenBase(g: Graph, placements: map<Path, InstanceKey>, item: Item): (i: nat)
    ensures i <= |item.bases|
  {
    FirstFree(g, placements, item.bases, item.dep.name,
              NearestIndex(g, placements, item.bases, item.dep.name) + 1)
  }

  function Place(g: Graph, st: State, target: Path, key: InstanceKey): State
    requires key in g.storage
  {
    st.(placements := st.placements[target := key],
        activation := st.activation + [ActivationStep(g.kind, g.storage[key], target)],
        reachable := st.reachable + {key})
  }

  /** Placing `item` at base `k`, and enqueueing the children unless its lookup state repeats. */
  function PlaceItem(g: Graph, st: State, item: Item, k: nat): Result<State, PlanError>
    requires k < |item.bases|
    requires item.dep.child in g.storage
  {
    var target := item.bases[k] + [item.dep.name];
    var placed := Place(g, st, target, item.dep.child);
    var bases := item.bases[..k + 1] + [target];
    var seen := Seen(item.dep.child, View(placed.placements, bases, g.names));
    var deps := ChildrenOf(g, item.dep.child);
    if seen !in item.lineage then
      Ok(placed.(pending := placed.pending + Enqueued(deps, bases, item.lineage + {seen})))
    else if AllSeen(placed.placements, bases, deps) then Ok(placed)
    else Err(ConflictingTarget(target))
  }

  /** One iteration of the `while let Some(..) = pending.pop_front()` loop. */
  function Turn(g: Graph, st: State): Result<State, PlanError>
    requires st.pending != []
    requires st.pending[0].dep.child in g.storage
    requires st.pending[0].bases != []
  {
    var item := st.pending[0];
    var popped := st.(pending := st.pending[1..]);
    if AlreadyResolves(g, st.placements, item) then
      Ok(popped.(reachable := popped.reachable + {item.dep.child}))
    else
      var k := ChosenBase(g, st.placements, item);
      if k == |item.bases| then
        Err(ConflictingTarget(item.bases[|item.bases| - 1] + [item.dep.name]))
      else
        PlaceItem(g, popped, item, k)
  }
}
