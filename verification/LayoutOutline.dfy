/**
 Following the planner on an example: turns and root placements said of the worklist's
 outline, in which a lineage is only the set of instances it has met.
 */
module LayoutOutline {
  import opened Wrappers
  import opened Ordering
  import opened LayoutModel
  import opened LayoutRun
  import opened LayoutResolution
  import opened LayoutPlanner
  import opened LayoutTheorems

  datatype Outline = Outline(dep: Dependency, bases: seq<Path>, keys: set<InstanceKey>)

  function OutlineOf(item: Item): Outline { Outline(item.dep, item.bases, set s | s in item.lineage :: s.key) }

  function Outlines(pending: seq<Item>): (r: seq<Outline>)
    ensures |r| == |pending| && forall i :: 0 <= i < |pending| ==> r[i] == OutlineOf(pending[i])
  {
    seq(|pending|, i requires 0 <= i < |pending| => OutlineOf(pending[i]))
  }

  function Fresh(deps: seq<Dependency>, bases: seq<Path>, keys: set<InstanceKey>): (r: seq<Outline>)
    ensures |r| == |deps| && forall i :: 0 <= i < |deps| ==> r[i] == Outline(deps[i], bases, keys)
  {
    seq(|deps|, i requires 0 <= i < |deps| => Outline(deps[i], bases, keys))
  }

  /** The state as far as the example cares. */
  ghost predicate Stage(st: State, outline: seq<Outline>, placements: map<Path, InstanceKey>) {
    Outlines(st.pending) == outline && st.placements == placements
  }

  // ----- Turns -----

  /** There is a pending item, and its turn succeeds. */
  ghost predicate Turnable(g: Graph, st: State) {
    st.pending != [] && st.pending[0].bases != [] && st.pending[0].dep.child in g.storage && Turn(g, st).Ok?
  }

  lemma {:induction false} NearestIs(g: Graph, placements: map<Path, InstanceKey>, bases: seq<Path>, name: Name, i: int)
    requires -1 <= i < |bases| && (i >= 0 ==> Held(g, placements, bases[i] + [name]))
    requires forall j :: i < j < |bases| ==> !Held(g, placements, bases[j] + [name])
    ensures NearestIndex(g, placements, bases, name) == i
    decreases |bases|
  {
    if bases != [] && i < |bases| - 1 {
      NearestIs(g, placements, bases[..|bases| - 1], name, i);
    }
  }

  /** The nearest holder of the name is at base `i`, or nowhere. */
  ghost predicate NearestAt(g: Graph, placements: map<Path, InstanceKey>, o: Outline, i: int) {
    && -1 <= i < |o.bases| && (i >= 0 ==> o.bases[i] + [o.dep.name] in placements)
    && forall j :: i < j < |o.bases| ==> o.bases[j] + [o.dep.name] !in placements
  }

  lemma OutlineFront(st: State, o: Outline, rest: seq<Outline>)
    requires Outlines(st.pending) == [o] + rest
    ensures st.pending != [] && st.pending[0].dep == o.dep && st.pending[0].bases == o.bases
    ensures Outlines(st.pending[1..]) == rest
    ensures forall s :: s in st.pending[0].lineage ==> s.key in o.keys
    ensures o.keys == set s | s in st.pending[0].lineage :: s.key
  {
    assert Outlines(st.pending)[0] == o;
    assert |st.pending| == 1 + |rest|;
    forall i | 0 <= i < |rest| ensures Outlines(st.pending[1..])[i] == rest[i] {
      assert Outlines(st.pending)[i + 1] == rest[i];
    }
  }

  lemma OutlinesAppend(a: seq<Item>, b: seq<Item>)
    ensures Outlines(a + b) == Outlines(a) + Outlines(b)
  {
  }

  lemma OutlineOfFresh(deps: seq<Dependency>, bases: seq<Path>, lineage: set<Seen>, seen: Seen, keys: set<InstanceKey>)
    requires keys == set s | s in lineage :: s.key
    ensures Outlines(Enqueued(deps, bases, lineage + {seen})) == Fresh(deps, bases, keys + {seen.key})
  {
    assert (set s | s in lineage + {seen} :: s.key) == keys + {seen.key};
  }

  /** A turn that finds the locked child in place. */
  lemma TurnFinds(g: Graph, st: State, o: Outline, rest: seq<Outline>, pl: map<Path, InstanceKey>, i: nat)
    requires g.reserved == {} && Stage(st, [o] + rest, pl) && o.dep.child in g.storage
    requires NearestAt(g, pl, o, i) && pl[o.bases[i] + [o.dep.name]] == o.dep.child
    ensures st.pending != [] && st.pending[0].bases != [] && st.pending[0].dep.child in g.storage
    ensures Turn(g, st).Ok? && Stage(Turn(g, st).value, rest, pl) && Filled(g, st).None?
  {
    OutlineFront(st, o, rest);
    NearestIs(g, pl, o.bases, o.dep.name, i);
  }

  /** A turn that nests a new placement just inside the nearest holder of another identity. */
  lemma TurnNests(g: Graph, st: State, o: Outline, rest: seq<Outline>, pl: map<Path, InstanceKey>, i: nat)
    requires g.reserved == {} && Stage(st, [o] + rest, pl) && o.dep.child in g.storage && o.dep.child !in o.keys
    requires NearestAt(g, pl, o, i) && pl[o.bases[i] + [o.dep.name]] != o.dep.child && i + 1 < |o.bases|
    ensures st.pending != [] && st.pending[0].bases != [] && st.pending[0].dep.child in g.storage
    ensures var target := o.bases[i + 1] + [o.dep.name];
            && Turn(g, st).Ok? && Filled(g, st) == Some(target)
            && Stage(Turn(g, st).value,
                     rest + Fresh(ChildrenOf(g, o.dep.child), o.bases[..i + 2] + [target], o.keys + {o.dep.child}),
                     pl[target := o.dep.child])
  {
    OutlineFront(st, o, rest);
    NearestIs(g, pl, o.bases, o.dep.name, i);
    var item := st.pending[0];
    ChosenIsJustInside(g, pl, item);
    NestedOutline(g, st.(pending := st.pending[1..]), item, i + 1, o.keys);
  }

  lemma NestedOutline(g: Graph, st: State, item: Item, k: nat, keys: set<InstanceKey>)
    requires k < |item.bases| && item.dep.child in g.storage && item.dep.child !in keys
    requires keys == set s | s in item.lineage :: s.key
    ensures var target := item.bases[k] + [item.dep.name];
            && PlaceItem(g, st, item, k).Ok?
            && PlaceItem(g, st, item, k).value.placements == st.placements[target := item.dep.child]
            && Outlines(PlaceItem(g, st, item, k).value.pending)
               == Outlines(st.pending) + Fresh(ChildrenOf(g, item.dep.child), item.bases[..k + 1] + [target],
                   keys + {item.dep.child})
  {
    var target := item.bases[k] + [item.dep.name];
    var bases := item.bases[..k + 1] + [target];
    var seen := Seen(item.dep.child, View(st.placements[target := item.dep.child], bases, g.names));
    assert seen !in item.lineage;
    OutlineOfFresh(ChildrenOf(g, item.dep.child), bases, item.lineage, seen, keys);
    OutlinesAppend(st.pending, Enqueued(ChildrenOf(g, item.dep.child), bases, item.lineage + {seen}));
  }

  // ----- Roots -----

  lemma SeedStep(g: Graph, root: Dependency, rest: seq<Dependency>, st: State)
    requires g.reserved == {} && root.child in g.storage && [root.name] !in st.placements
    ensures Seed(g, [root] + rest, st) == Seed(g, rest, SeedOne(g, root, st))
  {
    assert ([root] + rest)[1..] == rest;
  }

  lemma SeedOutline(g: Graph, root: Dependency, st: State, outline: seq<Outline>, pl: map<Path, InstanceKey>)
    requires root.child in g.storage && Stage(st, outline, pl)
    ensures Stage(SeedOne(g, root, st), outline + Fresh(ChildrenOf(g, root.child), [[], [root.name]], {}),
        pl[[root.name] := root.child])
  {
    var items := Enqueued(ChildrenOf(g, root.child), [[], [root.name]], {});
    OutlinesAppend(st.pending, items);
    var none: set<Seen> := {};
    assert (set s | s in none :: s.key) == {};
  }

  // ----- Validation, from the elements of the input -----

  lemma {:induction false} AdjacentOrder<T(!new)>(le: (T, T) -> bool, s: seq<T>, i: nat, j: nat)
    requires TotalOrder(le) && forall k :: 0 < k < |s| ==> le(s[k - 1], s[k]) && s[k - 1] != s[k]
    requires i < j < |s|
    ensures le(s[i], s[j]) && s[i] != s[j]
    decreases j
  {
    if i + 1 < j { AdjacentOrder(le, s, i, j - 1); }
  }

  lemma AdjacentStrict<T(!new)>(le: (T, T) -> bool, s: seq<T>)
    requires TotalOrder(le) && forall k :: 0 < k < |s| ==> le(s[k - 1], s[k]) && s[k - 1] != s[k]
    ensures StrictlySorted(le, s)
  {
    forall i, j | 0 <= i < j < |s| ensures le(s[i], s[j]) && s[i] != s[j] { AdjacentOrder(le, s, i, j); }
  }

  lemma SortedFromElements<T(!new)>(le: (T, T) -> bool, s: seq<T>, sorted: seq<T>)
    requires TotalOrder(le) && (forall x :: x in s <==> x in sorted)
    requires forall k :: 0 < k < |sorted| ==> le(sorted[k - 1], sorted[k]) && sorted[k - 1] != sorted[k]
    ensures Canonical(le, s) == sorted
  {
    AdjacentStrict(le, sorted);
    CanonicalStrict(le, s);
    CanonicalElements(le, s);
    StrictlySortedUnique(le, Canonical(le, s), sorted);
  }

  lemma {:induction false} IncreasingKeys(instances: seq<Instance>, seen: set<InstanceKey>)
    requires KeysIncrease(instances)
    requires forall k, i :: k in seen && 0 <= i < |instances| ==> k < instances[i].key
    ensures FirstDuplicate(instances, seen).None?
  {
    if instances != [] { IncreasingKeys(instances[1..], seen + {instances[0].key}); }
  }

  lemma {:induction false} StorageIs(instances: seq<Instance>, k: InstanceKey)
    requires KeysIncrease(instances)
    ensures k in Storage(instances) <==> exists i :: 0 <= i < |instances| && instances[i].key == k
    ensures forall i :: 0 <= i < |instances| ==>
              instances[i].key in Storage(instances) && Storage(instances)[instances[i].key] == instances[i].storage
  {
    if instances != [] {
      var rest := instances[1..];
      StorageIs(rest, k);
      forall i | 0 <= i < |instances|
        ensures instances[i].key in Storage(instances) && Storage(instances)[instances[i].key] == instances[i].storage {
        if i > 0 { assert rest[i - 1] == instances[i]; }
      }
      if exists i :: 0 <= i < |rest| && rest[i].key == k {
        var i :| 0 <= i < |rest| && rest[i].key == k;
        assert instances[i + 1].key == k;
      }
      forall i | 0 < i < |instances| && instances[i].key == k ensures exists j :: 0 <= j < |rest| && rest[j].key == k {
        assert rest[i - 1].key == k;
      }
    }
  }

  lemma InstancesStay(instances: seq<Instance>)
    requires KeysIncrease(instances)
    ensures Sort(InstanceLe, instances) == instances
  {
    Orders();
    SortSorted(InstanceLe, instances);
    forall i, j | 0 <= i < j < |instances| ensures InstanceLe(instances[i], instances[j]) {}
    SortElements(InstanceLe, instances);
    SortedUnique(InstanceLe, Sort(InstanceLe, instances), instances);
  }

  ghost predicate KeysIncrease(instances: seq<Instance>) {
    forall i, j :: 0 <= i < j < |instances| ==> instances[i].key < instances[j].key
  }

  ghost predicate EdgesKnown(edges: seq<Edge>, storage: map<InstanceKey, string>) {
    forall e :: e in edges ==> e.parent in storage && e.dependency.child in storage
  }

  ghost predicate ChildrenMatch(edges: seq<Edge>, children: map<InstanceKey, seq<Dependency>>) {
    && (forall k :: k in children <==> exists e :: e in edges && e.parent == k)
    && (forall k, d :: k in children ==> (Edge(k, d) in edges <==> d in children[k]))
    && (forall k :: k in children ==> Rises(children[k]))
  }

  ghost predicate Rises(deps: seq<Dependency>) {
    forall i :: 0 < i < |deps| ==> DependencyLe(deps[i - 1], deps[i]) && deps[i - 1] != deps[i]
  }

  ghost predicate NamesMatch(edges: seq<Edge>, names: seq<Name>) {
    && (forall n :: n in names <==> exists e :: e in edges && e.dependency.name == n)
    && (forall i :: 0 < i < |names| ==> TextLe(names[i - 1], names[i]) && names[i - 1] != names[i])
  }

  /** The graph is what its input says, element by element. */
  ghost predicate Describes(input: Input, g: Graph) {
    && g.kind == Symlink && g.reserved == {} && g.storage == Storage(input.instances)
    && KeysIncrease(input.instances)
    && EdgesKnown(input.edges, g.storage)
    && ChildrenMatch(input.edges, g.children)
    && NamesMatch(input.edges, g.names)
  }

  lemma DescribedChild(given: seq<Edge>, edges: seq<Edge>, k: InstanceKey, deps: seq<Dependency>)
    requires (forall e :: e in edges <==> e in given) && Rises(deps)
    requires forall d :: Edge(k, d) in given <==> d in deps
    ensures Canonical(DependencyLe, DependenciesOf(edges, k)) == deps
  {
    Orders();
    forall d ensures d in DependenciesOf(edges, k) <==> d in deps { DependenciesOfElements(edges, k, d); }
    SortedFromElements(DependencyLe, DependenciesOf(edges, k), deps);
  }

  lemma DescribedParents(given: seq<Edge>, edges: seq<Edge>, children: map<InstanceKey, seq<Dependency>>)
    requires forall k :: k in children <==> exists e :: e in given && e.parent == k
    requires forall e :: e in edges <==> e in given
    ensures Parents(edges) == children.Keys
  {
    forall k ensures k in Parents(edges) <==> k in children {}
  }

  lemma DescribedChildren(given: seq<Edge>, edges: seq<Edge>, children: map<InstanceKey, seq<Dependency>>)
    requires ChildrenMatch(given, children) && forall e :: e in edges <==> e in given
    ensures ChildrenMap(edges) == children
  {
    DescribedParents(given, edges, children);
    forall k | k in children ensures Canonical(DependencyLe, DependenciesOf(edges, k)) == children[k] {
      DescribedChild(given, edges, k, children[k]);
    }
    ChildrenAre(edges, children);
  }

  lemma DescribedNames(input: Input, g: Graph, edges: seq<Edge>)
    requires Describes(input, g) && forall e :: e in edges <==> e in input.edges
    ensures Canonical(TextLe, NamesOf(edges)) == g.names
  {
    TextOrder();
    forall n ensures n in NamesOf(edges) <==> n in g.names { NamesOfElements(edges, n); }
    SortedFromElements(TextLe, NamesOf(edges), g.names);
  }

  lemma CheckedIs(instances: seq<Instance>, edges: seq<Edge>, g: Graph)
    requires FirstDuplicate(instances, {}).None? && FirstUnknown(Storage(instances).Keys, edges).None?
    requires g == Graph(Symlink, Storage(instances), ChildrenMap(edges), Canonical(TextLe, NamesOf(edges)), {})
    ensures Checked(Some(Symlink), instances, edges, {}) == Ok(g)
  {
  }

  lemma DescribedIsChecked(input: Input, g: Graph, edges: seq<Edge>)
    requires Describes(input, g) && forall e :: e in edges <==> e in input.edges
    ensures Checked(Some(Symlink), input.instances, edges, {}) == Ok(g)
  {
    IncreasingKeys(input.instances, {});
    DescribedChildren(input.edges, edges, g.children);
    DescribedNames(input, g, edges);
    CheckedIs(input.instances, edges, g);
  }

  lemma DescribedIsValidated(input: Input, g: Graph)
    requires Describes(input, g)
    ensures Validate(input, {}, Unix) == Ok(g) && GraphOk(g)
  {
    InstancesStay(input.instances);
    SortElements(EdgeLe, input.edges);
    DescribedIsChecked(input, g, Sort(EdgeLe, input.edges));
  }

  // ----- Whole plans -----

  lemma RootsStay(roots: seq<Dependency>)
    requires Rises(roots)
    ensures Canonical(DependencyLe, roots) == roots
  {
    Orders();
    SortedFromElements(DependencyLe, roots, roots);
  }

  lemma RunStep(g: Graph, st: State)
    requires GraphOk(g) && Inv(g, st) && st.pending != []
    requires st.pending[0].bases != [] && st.pending[0].dep.child in g.storage && Turn(g, st).Ok?
    ensures Inv(g, Turn(g, st).value) && Run(g, st) == Run(g, Turn(g, st).value)
  {
    TurnKeeps(g, st);
  }

  /** The plan of an example whose run has been followed to its end. */
  lemma PlanOfRun(input: Input, g: Graph, placements: map<Path, InstanceKey>)
    requires Describes(input, g) && GraphOk(g) && Validate(input, {}, Unix) == Ok(g)
    requires Start(g, input.roots).Ok? && Run(g, Start(g, input.roots).value).Ok?
    requires Run(g, Start(g, input.roots).value).value.placements == placements
    requires forall e :: e in input.edges ==> e.parent in placements.Values
    ensures PlanLayout(input, {}, Unix).Ok? && PlanLayout(input, {}, Unix).value.placements == placements
  {
    SearchTables(g, input.roots);
    SortElements(EdgeLe, input.edges);
    FinishKeepsPlacements(Sort(InstanceLe, input.instances), Sort(EdgeLe, input.edges), Search(g, input.roots).value);
  }

  lemma FinishKeepsPlacements(instances: seq<Instance>, edges: seq<Edge>, st: State)
    requires FirstUnreached(st.reachable, edges).None?
    ensures Finish(instances, edges, st).Ok? && Finish(instances, edges, st).value.placements == st.placements
  {
  }
}
