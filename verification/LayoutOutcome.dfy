/**
 The whole plan, exactly: which inputs are accepted and with which graph, what the
 worklist starts from, when planning fails, and what a returned plan lists.
 */
module LayoutOutcome {
  import opened Wrappers
  import opened Ordering
  import opened LayoutModel
  import opened LayoutPaths
  import opened LayoutRun
  import opened LayoutResolution
  import opened LayoutBookkeeping
  import opened LayoutPlanner
  import opened LayoutTheorems
  import opened LayoutFailure

  // ----- Validation -----

  ghost predicate DistinctKeys(instances: seq<Instance>) {
    forall i, j :: 0 <= i < j < |instances| ==> instances[i].key != instances[j].key
  }

  ghost predicate Known(instances: seq<Instance>, key: InstanceKey) {
    exists x :: x in instances && x.key == key
  }

  ghost predicate EdgesKnown(input: Input) {
    forall e :: e in input.edges ==>
      Known(input.instances, e.parent) && Known(input.instances, e.dependency.child)
  }

  lemma DistinctInAnyOrder(a: seq<Instance>, b: seq<Instance>)
    requires multiset(a) == multiset(b)
    ensures DistinctKeys(a) <==> DistinctKeys(b)
    ensures forall x :: x in a <==> x in b
  {
    var key := (x: Instance) => x.key;
    if KeysApart(a, key) { ApartInAnyOrder(a, b, key); }
    if KeysApart(b, key) { ApartInAnyOrder(b, a, key); }
    assert forall i, j :: 0 <= i < j < |a| ==> key(a[i]) == a[i].key && key(a[j]) == a[j].key;
    assert forall i, j :: 0 <= i < j < |b| ==> key(b[i]) == b[i].key && key(b[j]) == b[j].key;
    forall x ensures x in a <==> x in b {
      assert x in a <==> x in multiset(a);
      assert x in b <==> x in multiset(b);
    }
  }

  /** Two instances have the key, or one of them is given twice. */
  ghost predicate GivenTwice(s: seq<Instance>, key: InstanceKey) {
    exists x, y :: x in s && y in s && x.key == y.key == key && (x != y || multiset(s)[x] >= 2)
  }

  lemma SameKeyTwice(s: seq<Instance>, i: nat, j: nat)
    requires i < j < |s| && s[i].key == s[j].key
    ensures GivenTwice(s, s[i].key)
  {
    if s[i] == s[j] { TwiceCounts(s, i, j); }
    assert s[i] in s && s[j] in s;
  }

  lemma DistinctNext(s: seq<Instance>)
    requires s != []
    ensures DistinctKeys(s) <==> DistinctKeys(s[1..]) && forall x :: x in s[1..] ==> x.key != s[0].key
  {
    var rest := s[1..];
    forall j | 0 < j < |s| ensures s[j] == rest[j - 1] && rest[j - 1] in rest {}
    if DistinctKeys(s) {
      forall x | x in rest ensures x.key != s[0].key {
        var j :| 0 <= j < |rest| && rest[j] == x;
        assert s[j + 1] == x;
      }
      forall i, j | 0 <= i < j < |rest| ensures rest[i].key != rest[j].key {
        assert s[i + 1].key != s[j + 1].key;
      }
    }
  }

  lemma {:induction false} FirstDuplicateIff(s: seq<Instance>, seen: set<InstanceKey>)
    ensures FirstDuplicate(s, seen).None? <==> DistinctKeys(s) && forall x :: x in s ==> x.key !in seen
  {
    if s != [] {
      assert s == [s[0]] + s[1..];
      FirstDuplicateIff(s[1..], seen + {s[0].key});
      DistinctNext(s);
    }
  }

  lemma {:induction false} FirstDuplicateIs(s: seq<Instance>, seen: set<InstanceKey>)
    ensures var r := FirstDuplicate(s, seen);
            r.Some? ==> Known(s, r.value)
                        && (r.value in seen || exists i, j :: 0 <= i < j < |s| && s[i].key == s[j].key == r.value)
  {
    if FirstDuplicate(s, seen).Some? {
      assert s[0] in s;
      if s[0].key !in seen {
        var k := FirstDuplicate(s, seen).value;
        FirstDuplicateIs(s[1..], seen + {s[0].key});
        var x :| x in s[1..] && x.key == k;
        var j :| 0 <= j < |s[1..]| && s[1..][j] == x;
        assert s[j + 1] == x && x in s;
        if k !in seen && k != s[0].key {
          var i, l :| 0 <= i < l < |s[1..]| && s[1..][i].key == s[1..][l].key == k;
          assert s[i + 1].key == s[l + 1].key == k;
        }
      }
    }
  }

  lemma {:induction false} StorageKeys(s: seq<Instance>, k: InstanceKey)
    ensures k in Storage(s) <==> Known(s, k)
  {
    if s != [] {
      StorageKeys(s[1..], k);
      assert s == [s[0]] + s[1..];
      if Known(s, k) && k != s[0].key {
        var x :| x in s && x.key == k;
        assert x in s[1..];
      }
    }
  }

  lemma KnownAlike(a: seq<Instance>, b: seq<Instance>)
    requires forall x :: x in a <==> x in b
    ensures forall k :: Known(a, k) <==> Known(b, k)
  {
  }

  /** Validation of sorted instances and edges: exactly when it succeeds. */
  lemma CheckedOkIff(kind: Option<LinkKind>, instances: seq<Instance>, edges: seq<Edge>, reserved: set<Name>)
    ensures Checked(kind, instances, edges, reserved).Ok?
            <==> && kind.Some? && DistinctKeys(instances)
                 && forall e :: e in edges ==> Known(instances, e.parent) && Known(instances, e.dependency.child)
  {
    FirstDuplicateIff(instances, {});
    forall k ensures k in Storage(instances) <==> Known(instances, k) { StorageKeys(instances, k); }
  }

  lemma CheckedError(kind: Option<LinkKind>, instances: seq<Instance>, edges: seq<Edge>, reserved: set<Name>)
    requires Checked(kind, instances, edges, reserved).Err?
    ensures var e := Checked(kind, instances, edges, reserved).error;
            if kind.None? then e == UnsupportedPlatform
            else if !DistinctKeys(instances) then e.DuplicateInstance? && GivenTwice(instances, e.key)
            else e.UnknownInstance? && !Known(instances, e.key) && Ends(edges, e.key)
  {
    FirstDuplicateIff(instances, {});
    FirstDuplicateIs(instances, {});
    FirstUnknownNamed(Storage(instances).Keys, edges);
    if kind.Some? {
      if !DistinctKeys(instances) {
        var k := FirstDuplicate(instances, {}).value;
        var i, j :| 0 <= i < j < |instances| && instances[i].key == instances[j].key == k;
        SameKeyTwice(instances, i, j);
      } else {
        StorageKeys(instances, FirstUnknown(Storage(instances).Keys, edges).value);
      }
    }
  }

  /** Exactly the inputs that pass validation. */
  lemma ValidateOkIff(input: Input, reserved: set<Name>, platform: Platform)
    ensures Validate(input, reserved, platform).Ok?
            <==> platform != Other && DistinctKeys(input.instances) && EdgesKnown(input)
  {
    DistinctInAnyOrder(input.instances, Sort(InstanceLe, input.instances));
    KnownAlike(input.instances, Sort(InstanceLe, input.instances));
    SortElements(EdgeLe, input.edges);
    CheckedOkIff(KindOf(platform), Sort(InstanceLe, input.instances), Sort(EdgeLe, input.edges), reserved);
  }

  /** The error names the platform, a key given twice, or an unknown end of an edge, in that order. */
  lemma ValidateError(input: Input, reserved: set<Name>, platform: Platform)
    requires Validate(input, reserved, platform).Err?
    ensures var e := Validate(input, reserved, platform).error;
            if platform == Other then e == UnsupportedPlatform
            else if !DistinctKeys(input.instances) then e.DuplicateInstance? && GivenTwice(input.instances, e.key)
            else e.UnknownInstance? && !Known(input.instances, e.key) && Ends(input.edges, e.key)
  {
    SortElements(EdgeLe, input.edges);
    ErrorAlike(KindOf(platform), Sort(InstanceLe, input.instances), Sort(EdgeLe, input.edges), input, reserved);
  }

  lemma ErrorAlike(kind: Option<LinkKind>, instances: seq<Instance>, edges: seq<Edge>, input: Input,
                   reserved: set<Name>)
    requires Checked(kind, instances, edges, reserved).Err?
    requires multiset(instances) == multiset(input.instances) && forall e :: e in edges <==> e in input.edges
    ensures var e := Checked(kind, instances, edges, reserved).error;
            if kind.None? then e == UnsupportedPlatform
            else if !DistinctKeys(input.instances) then e.DuplicateInstance? && GivenTwice(input.instances, e.key)
            else e.UnknownInstance? && !Known(input.instances, e.key) && Ends(input.edges, e.key)
  {
    DistinctInAnyOrder(input.instances, instances);
    KnownAlike(input.instances, instances);
    CheckedError(kind, instances, edges, reserved);
  }

  /** Some edge starts or ends at the instance. */
  ghost predicate Ends(edges: seq<Edge>, key: InstanceKey) {
    exists e :: e in edges && (e.parent == key || e.dependency.child == key)
  }

  lemma {:induction false} FirstUnknownNamed(known: set<InstanceKey>, edges: seq<Edge>)
    ensures var r := FirstUnknown(known, edges); r.Some? ==> r.value !in known && Ends(edges, r.value)
  {
    if edges != [] {
      assert edges[0] in edges;
      FirstUnknownNamed(known, edges[1..]);
      if FirstUnknown(known, edges[1..]).Some? {
        var k := FirstUnknown(known, edges[1..]).value;
        var e :| e in edges[1..] && (e.parent == k || e.dependency.child == k);
        assert e in edges;
      }
    }
  }

  /** The name comes first in text order, and for one name the smaller child does. */
  ghost predicate Before(a: Dependency, b: Dependency) {
    if a.name == b.name then a.child < b.child else TextLe(a.name, b.name)
  }

  ghost predicate Named(edges: seq<Edge>, name: Name) {
    exists e :: e in edges && e.dependency.name == name
  }

  ghost predicate ChildrenSorted(g: Graph) {
    forall k, i, j :: 0 <= i < j < |ChildrenOf(g, k)| ==> Before(ChildrenOf(g, k)[i], ChildrenOf(g, k)[j])
  }

  /** The graph's fields, on the input. */
  ghost predicate IsGraphOf(g: Graph, input: Input, reserved: set<Name>, platform: Platform) {
    && g.kind == (if platform == Unix then Symlink else Junction)
    && g.reserved == reserved
    && (forall k :: k in g.storage <==> Known(input.instances, k))
    && (forall x :: x in input.instances ==> x.key in g.storage && g.storage[x.key] == x.storage)
    && (forall n :: n in g.names <==> Named(input.edges, n))
    && (forall k, d :: d in ChildrenOf(g, k) <==> Edge(k, d) in input.edges)
    && ChildrenSorted(g)
  }

  /** Validation keeps the instances and the edges, names what the edges name, and orders the children. */
  lemma GraphIsInput(input: Input, reserved: set<Name>, platform: Platform)
    requires Validate(input, reserved, platform).Ok?
    ensures IsGraphOf(Validate(input, reserved, platform).value, input, reserved, platform)
  {
    var g := Validate(input, reserved, platform).value;
    StorageIsInput(input, reserved, platform);
    SortElements(EdgeLe, input.edges);
    CheckedNames(KindOf(platform), Sort(InstanceLe, input.instances), Sort(EdgeLe, input.edges), reserved);
    SameNames(input.edges, Sort(EdgeLe, input.edges));
  }

  lemma SameNames(a: seq<Edge>, b: seq<Edge>)
    requires forall e :: e in a <==> e in b
    ensures forall n :: Named(a, n) <==> Named(b, n)
  {
  }

  lemma CheckedNames(kind: Option<LinkKind>, instances: seq<Instance>, edges: seq<Edge>, reserved: set<Name>)
    requires Checked(kind, instances, edges, reserved).Ok?
    ensures var g := Checked(kind, instances, edges, reserved).value;
            kind == Some(g.kind) && (forall n :: n in g.names <==> Named(edges, n)) && ChildrenSorted(g)
  {
    BuiltNames(edges, BuildGraph(kind.value, instances, edges, reserved));
  }

  lemma BuiltNames(edges: seq<Edge>, g: Graph)
    requires g.names == Canonical(TextLe, NamesOf(edges)) && g.children == ChildrenMap(edges)
    ensures (forall n :: n in g.names <==> Named(edges, n)) && ChildrenSorted(g)
  {
    NamesAreEdgeNames(edges);
    AllChildrenInOrder(edges, g);
  }

  lemma StorageIsInput(input: Input, reserved: set<Name>, platform: Platform)
    requires Validate(input, reserved, platform).Ok?
    ensures var g := Validate(input, reserved, platform).value;
            && (forall k :: k in g.storage <==> Known(input.instances, k))
            && (forall x :: x in input.instances ==> x.key in g.storage && g.storage[x.key] == x.storage)
  {
    DistinctInAnyOrder(input.instances, Sort(InstanceLe, input.instances));
    KnownAlike(input.instances, Sort(InstanceLe, input.instances));
    CheckedStorage(KindOf(platform), Sort(InstanceLe, input.instances), Sort(EdgeLe, input.edges), reserved);
    forall x | x in input.instances { ValidatedStorage(input, reserved, platform, x); }
  }

  lemma CheckedStorage(kind: Option<LinkKind>, instances: seq<Instance>, edges: seq<Edge>, reserved: set<Name>)
    requires Checked(kind, instances, edges, reserved).Ok?
    ensures forall k :: k in Checked(kind, instances, edges, reserved).value.storage <==> Known(instances, k)
  {
    forall k ensures k in Storage(instances) <==> Known(instances, k) { StorageKeys(instances, k); }
  }

  lemma AllChildrenInOrder(edges: seq<Edge>, g: Graph)
    requires g.children == ChildrenMap(edges)
    ensures ChildrenSorted(g)
  {
    forall k, i, j | 0 <= i < j < |ChildrenOf(g, k)| ensures Before(ChildrenOf(g, k)[i], ChildrenOf(g, k)[j]) {
      ChildrenInOrder(edges, k, i, j);
    }
  }

  lemma NamesAreEdgeNames(edges: seq<Edge>)
    ensures forall n :: n in Canonical(TextLe, NamesOf(edges)) <==> Named(edges, n)
  {
    CanonicalElements(TextLe, NamesOf(edges));
    forall n ensures n in NamesOf(edges) <==> Named(edges, n) {
      NamesOfElements(edges, n);
    }
  }

  lemma ChildrenInOrder(edges: seq<Edge>, k: InstanceKey, i: nat, j: nat)
    requires k in ChildrenMap(edges) && i < j < |ChildrenMap(edges)[k]|
    ensures Before(ChildrenMap(edges)[k][i], ChildrenMap(edges)[k][j])
  {
    Orders();
    CanonicalStrict(DependencyLe, DependenciesOf(edges, k));
    StrictMeansBefore(ChildrenMap(edges)[k], i, j);
  }

  lemma StrictMeansBefore(s: seq<Dependency>, i: nat, j: nat)
    requires StrictlySorted(DependencyLe, s) && i < j < |s|
    ensures Before(s[i], s[j])
  {
    assert DependencyLe(s[i], s[j]) && s[i] != s[j];
  }

  // ----- Roots -----

  ghost predicate RootsOk(input: Input, reserved: set<Name>) {
    && (forall d :: d in input.roots ==> Known(input.instances, d.child) && d.name !in reserved)
    && (forall d, e :: d in input.roots && e in input.roots && d.name == e.name ==> d.child == e.child)
  }

  /** A root's own placement agrees with the table. */
  predicate Agrees(placements: map<Path, InstanceKey>, d: Dependency) {
    [d.name] in placements ==> placements[[d.name]] == d.child
  }

  lemma {:induction false} SeedOkIff(g: Graph, roots: seq<Dependency>, st: State)
    ensures Seed(g, roots, st).Ok?
            <==> && (forall d :: d in roots ==> d.child in g.storage && d.name !in g.reserved)
                 && (forall d :: d in roots ==> Agrees(st.placements, d))
                 && (forall d, e :: d in roots && e in roots && d.name == e.name ==> d.child == e.child)
  {
    if roots != [] {
      var root := roots[0];
      assert roots == [root] + roots[1..];
      assert root in roots;
      assert forall d :: d in roots <==> d == root || d in roots[1..];
      if root.child in g.storage && root.name !in g.reserved && Agrees(st.placements, root) {
        var next := if [root.name] in st.placements then st else SeedOne(g, root, st);
        SeedOkIff(g, roots[1..], next);
        assert next.placements == st.placements[[root.name] := root.child];
        forall d | d in roots[1..]
          ensures Agrees(next.placements, d)
                  <==> Agrees(st.placements, d) && (d.name == root.name ==> d.child == root.child)
        {
          assert [d.name] == [root.name] <==> d.name == root.name;
        }
      }
    }
  }

  /** The items that the roots enqueue: their children, in order, with nothing in their lineage. */
  ghost function RootItems(g: Graph, roots: seq<Dependency>): seq<Item> {
    if roots == [] then []
    else
      var deps := ChildrenOf(g, roots[0].child);
      seq(|deps|, i requires 0 <= i < |deps| => Item(deps[i], [[], [roots[0].name]], {})) + RootItems(g, roots[1..])
  }

  ghost predicate NewNames(roots: seq<Dependency>, placements: map<Path, InstanceKey>) {
    && (forall i, j :: 0 <= i < j < |roots| ==> roots[i].name != roots[j].name)
    && (forall d :: d in roots ==> [d.name] !in placements)
  }

  lemma {:induction false} SeedIsRoots(g: Graph, roots: seq<Dependency>, st: State)
    requires Seed(g, roots, st).Ok? && NewNames(roots, st.placements)
    ensures var next := Seed(g, roots, st).value;
            && next.pending == st.pending + RootItems(g, roots)
            && forall p :: p in next.placements <==> p in st.placements || exists d :: d in roots && p == [d.name]
  {
    if roots != [] {
      var root := roots[0];
      var next := SeedOne(g, root, st);
      assert root in roots;
      RestIsNew(roots, st.placements, next.placements);
      SeedIsRoots(g, roots[1..], next);
      PendingGrows(g, roots, st);
      assert forall d :: d in roots <==> d == root || d in roots[1..] by { assert roots == [root] + roots[1..]; }
    }
  }

  lemma RestIsNew(roots: seq<Dependency>, placements: map<Path, InstanceKey>, next: map<Path, InstanceKey>)
    requires roots != [] && NewNames(roots, placements)
    requires next.Keys == placements.Keys + {[roots[0].name]}
    ensures NewNames(roots[1..], next)
  {
    forall d | d in roots[1..] ensures [d.name] !in next {
      var j :| 0 <= j < |roots[1..]| && roots[1..][j] == d;
      assert roots[j + 1] == d && roots[0].name != roots[j + 1].name;
      assert d in roots;
    }
  }

  lemma PendingGrows(g: Graph, roots: seq<Dependency>, st: State)
    requires roots != [] && roots[0].child in g.storage
    ensures SeedOne(g, roots[0], st).pending + RootItems(g, roots[1..]) == st.pending + RootItems(g, roots)
  {
    var deps := ChildrenOf(g, roots[0].child);
    var items := seq(|deps|, i requires 0 <= i < |deps| => Item(deps[i], [[], [roots[0].name]], {}));
    assert Enqueued(deps, [[], [roots[0].name]], {}) == items;
    assert (st.pending + items) + RootItems(g, roots[1..]) == st.pending + (items + RootItems(g, roots[1..]));
  }

  lemma CanonicalRootsNew(roots: seq<Dependency>)
    requires forall d, e :: d in roots && e in roots && d.name == e.name ==> d.child == e.child
    ensures NewNames(Canonical(DependencyLe, roots), map[])
  {
    Orders();
    var s := Canonical(DependencyLe, roots);
    CanonicalStrict(DependencyLe, roots);
    CanonicalElements(DependencyLe, roots);
    forall i, j | 0 <= i < j < |s| ensures s[i].name != s[j].name {
      assert s[i] in roots && s[j] in roots && s[i] != s[j];
    }
  }

  /** Exactly when the roots can be placed. */
  lemma StartOkIff(input: Input, reserved: set<Name>, platform: Platform)
    requires Validate(input, reserved, platform).Ok?
    ensures Start(Validate(input, reserved, platform).value, input.roots).Ok? <==> RootsOk(input, reserved)
  {
    GraphIsInput(input, reserved, platform);
    CanonicalElements(DependencyLe, input.roots);
    SeedOkIff(Validate(input, reserved, platform).value, Canonical(DependencyLe, input.roots), EMPTY);
  }

  /** The worklist that the roots start. */
  lemma StartIsRoots(g: Graph, roots: seq<Dependency>)
    requires GraphOk(g) && Start(g, roots).Ok?
    ensures StartsFrom(g, roots, Start(g, roots).value)
  {
    var sorted := Canonical(DependencyLe, roots);
    CanonicalElements(DependencyLe, roots);
    SeedOkIff(g, sorted, EMPTY);
    CanonicalRootsNew(roots);
    SortedRoots(roots);
    SeedIsRoots(g, sorted, EMPTY);
    SearchBinds(g, roots);
    assert [] + RootItems(g, sorted) == RootItems(g, sorted);
  }

  lemma SortedRoots(roots: seq<Dependency>)
    ensures IsSortedRoots(roots, Canonical(DependencyLe, roots))
  {
    Orders();
    var sorted := Canonical(DependencyLe, roots);
    CanonicalStrict(DependencyLe, roots);
    CanonicalElements(DependencyLe, roots);
    forall i, j | 0 <= i < j < |sorted| ensures Before(sorted[i], sorted[j]) { StrictMeansBefore(sorted, i, j); }
  }

  lemma SearchBinds(g: Graph, roots: seq<Dependency>)
    requires GraphOk(g) && Start(g, roots).Ok?
    ensures forall d :: d in roots ==> [d.name] in Start(g, roots).value.placements
                                       && Start(g, roots).value.placements[[d.name]] == d.child
  {
    CanonicalElements(DependencyLe, roots);
    forall d | d in roots ensures [d.name] in Start(g, roots).value.placements
                                  && Start(g, roots).value.placements[[d.name]] == d.child {
      SeedBinds(g, Canonical(DependencyLe, roots), EMPTY, d);
    }
  }

  /** One placement for each root name, and the children of the roots in the worklist. */
  ghost predicate StartsFrom(g: Graph, roots: seq<Dependency>, st: State) {
    && (forall p :: p in st.placements <==> exists d :: d in roots && p == [d.name])
    && (forall d :: d in roots ==> [d.name] in st.placements && st.placements[[d.name]] == d.child)
    && exists sorted :: IsSortedRoots(roots, sorted) && st.pending == RootItems(g, sorted)
  }

  /** The roots without repetition, by name. */
  ghost predicate IsSortedRoots(roots: seq<Dependency>, sorted: seq<Dependency>) {
    && (forall d :: d in sorted <==> d in roots)
    && (forall i, j :: 0 <= i < j < |sorted| ==> Before(sorted[i], sorted[j]))
  }

  // ----- Failure of the whole plan -----

  /** Some set that holds the root children and is closed under edges leaves the instance out. */
  ghost predicate Unreachable(input: Input, key: InstanceKey) {
    exists s: set<InstanceKey> :: ContainsReachable(input.edges, input.roots, s) && key !in s
  }

  /** The roots can be placed, but a turn after them fails. */
  ghost predicate WorklistGetsStuck(g: Graph, roots: seq<Dependency>)
    requires GraphOk(g)
  {
    Start(g, roots).Ok? && GetsStuck(g, Start(g, roots).value)
  }

  /**
   Exact failure of the planner: the input is invalid, the roots conflict, some turn fails,
   or some edge starts at an unreachable instance.
   */
  lemma PlanFailsIff(input: Input, reserved: set<Name>, platform: Platform)
    ensures PlanLayout(input, reserved, platform).Err?
            <==> || platform == Other || !DistinctKeys(input.instances) || !EdgesKnown(input)
                 || !RootsOk(input, reserved)
                 || (Validate(input, reserved, platform).Ok?
                     && WorklistGetsStuck(Validate(input, reserved, platform).value, input.roots))
                 || exists e :: e in input.edges && Unreachable(input, e.parent)
  {
    ValidateOkIff(input, reserved, platform);
    if Validate(input, reserved, platform).Ok? {
      var g := Validate(input, reserved, platform).value;
      StartOkIff(input, reserved, platform);
      if RootsOk(input, reserved) {
        RunFailsIff(g, Start(g, input.roots).value);
        if Search(g, input.roots).Ok? { FinishFailsIff(input, reserved, platform); }
      }
    }
  }

  lemma FinishFailsIff(input: Input, reserved: set<Name>, platform: Platform)
    requires Validate(input, reserved, platform).Ok?
    requires Search(Validate(input, reserved, platform).value, input.roots).Ok?
    ensures PlanLayout(input, reserved, platform).Err?
            <==> exists e :: e in input.edges && Unreachable(input, e.parent)
  {
    UnknownParentIff(input, reserved, platform);
    var reachable := Search(Validate(input, reserved, platform).value, input.roots).value.reachable;
    forall k ensures k !in reachable <==> Unreachable(input, k) {
      if k !in reachable { assert ContainsReachable(input.edges, input.roots, reachable); }
    }
  }

  // ----- What a returned plan lists -----

  /** Entries are the instances, in key order, each with its own tree and storage path. */
  lemma EntriesAreInstances(input: Input, reserved: set<Name>, platform: Platform)
    requires PlanLayout(input, reserved, platform).Ok?
    ensures var entries := PlanLayout(input, reserved, platform).value.entries;
            && |entries| == |input.instances|
            && (forall x :: x in input.instances ==> Entry(x.key, x.tree, x.storage) in entries)
            && (forall i, j :: 0 <= i < j < |entries| ==> entries[i].key < entries[j].key)
  {
    ValidateOkIff(input, reserved, platform);
    Orders();
    var sorted := Sort(InstanceLe, input.instances);
    SortSorted(InstanceLe, input.instances);
    DistinctInAnyOrder(input.instances, sorted);
    EntriesOfSorted(sorted);
  }

  lemma EntriesOfSorted(sorted: seq<Instance>)
    requires Sorted(InstanceLe, sorted) && DistinctKeys(sorted)
    ensures forall x :: x in sorted ==> Entry(x.key, x.tree, x.storage) in Entries(sorted)
    ensures forall i, j :: 0 <= i < j < |sorted| ==> Entries(sorted)[i].key < Entries(sorted)[j].key
  {
    forall x | x in sorted ensures Entry(x.key, x.tree, x.storage) in Entries(sorted) {
      var i :| 0 <= i < |sorted| && sorted[i] == x;
      assert Entries(sorted)[i] == Entry(x.key, x.tree, x.storage);
    }
    forall i, j | 0 <= i < j < |sorted| ensures Entries(sorted)[i].key < Entries(sorted)[j].key {
      assert InstanceLe(sorted[i], sorted[j]) && sorted[i].key != sorted[j].key;
    }
  }

  /** `a` comes before `b` component by component, a directory before what is inside it. */
  ghost predicate FirstDifference(a: seq<string>, b: seq<string>) {
    a <= b || exists k :: 0 <= k < |a| && k < |b| && a[..k] == b[..k] && a[k] != b[k] && TextLe(a[k], b[k])
  }

  lemma {:induction false} ComponentsLeIff(a: seq<string>, b: seq<string>)
    ensures ComponentsLe(a, b) <==> FirstDifference(a, b)
  {
    if a != [] && b != [] {
      assert a == [a[0]] + a[1..] && b == [b[0]] + b[1..];
      if a[0] == b[0] {
        ComponentsLeIff(a[1..], b[1..]);
        DifferenceShifts(a, b);
      } else {
        if TextLe(a[0], b[0]) { assert a[..0] == b[..0]; }
        forall k | 0 < k < |a| && k < |b| ensures a[..k] != b[..k] { assert a[..k][0] != b[..k][0]; }
      }
    }
  }

  lemma DifferenceShifts(a: seq<string>, b: seq<string>)
    requires a != [] && b != [] && a[0] == b[0]
    ensures FirstDifference(a, b) <==> FirstDifference(a[1..], b[1..])
  {
    assert a == [a[0]] + a[1..] && b == [b[0]] + b[1..];
    forall k | 0 <= k < |a[1..]| && k < |b[1..]|
      ensures a[..k + 1] == b[..k + 1] <==> a[1..][..k] == b[1..][..k]
    {
      assert a[..k + 1] == [a[0]] + a[1..][..k] && b[..k + 1] == [b[0]] + b[1..][..k];
    }
    if k :| 0 <= k < |a[1..]| && k < |b[1..]| && a[1..][..k] == b[1..][..k] && a[1..][k] != b[1..][k]
            && TextLe(a[1..][k], b[1..][k]) {
      assert a[..k + 1] == b[..k + 1] && a[k + 1] != b[k + 1] && TextLe(a[k + 1], b[k + 1]);
    }
    if k :| 0 <= k < |a| && k < |b| && a[..k] == b[..k] && a[k] != b[k] && TextLe(a[k], b[k]) {
      assert a[1..][..k - 1] == b[1..][..k - 1] && a[1..][k - 1] != b[1..][k - 1];
    }
  }

  /** Steps stand in the order of their target directories, and their kind is the platform's. */
  lemma StepsAreSorted(input: Input, reserved: set<Name>, platform: Platform)
    requires PlanLayout(input, reserved, platform).Ok?
    ensures var steps := PlanLayout(input, reserved, platform).value.activation;
            && (forall i, j :: 0 <= i < j < |steps| ==>
                  FirstDifference(Render(steps[i].target), Render(steps[j].target)))
            && (forall step :: step in steps ==>
                  platform != Other && step.kind == if platform == Unix then Symlink else Junction)
  {
    var g := Validate(input, reserved, platform).value;
    var st := Search(g, input.roots).value;
    var steps := PlanLayout(input, reserved, platform).value.activation;
    GraphIsInput(input, reserved, platform);
    ValidateOkIff(input, reserved, platform);
    PlanIsWrittenOnce(input, reserved, platform);
    forall step | step in steps ensures step.kind == g.kind {
      assert StepMatches(g, step, PlanLayout(input, reserved, platform).value.placements);
    }
    StepOrder();
    SortSorted((a: ActivationStep, b: ActivationStep) => PathLe(a.target, b.target), st.activation);
    forall i, j | 0 <= i < j < |steps| ensures FirstDifference(Render(steps[i].target), Render(steps[j].target)) {
      assert PathLe(steps[i].target, steps[j].target);
      ComponentsLeIff(Render(steps[i].target), Render(steps[j].target));
    }
  }

  lemma StepOrder()
    ensures Ranking((a: ActivationStep, b: ActivationStep) => PathLe(a.target, b.target))
  {
    TextOrder();
    forall a: seq<string>, b: seq<string> ensures ComponentsLe(a, b) || ComponentsLe(b, a) { ComponentsTotal(a, b); }
    forall a: seq<string>, b, c | ComponentsLe(a, b) && ComponentsLe(b, c) ensures ComponentsLe(a, c) {
      ComponentsTransitive(a, b, c);
    }
  }

  lemma {:induction false} ComponentsTotal(a: seq<string>, b: seq<string>)
    requires TotalOrder(TextLe)
    ensures ComponentsLe(a, b) || ComponentsLe(b, a)
  {
    if a != [] && b != [] && a[0] == b[0] { ComponentsTotal(a[1..], b[1..]); }
  }

  lemma {:induction false} ComponentsTransitive(a: seq<string>, b: seq<string>, c: seq<string>)
    requires TotalOrder(TextLe) && ComponentsLe(a, b) && ComponentsLe(b, c)
    ensures ComponentsLe(a, c)
  {
    if a != [] && a[0] == b[0] == c[0] { ComponentsTransitive(a[1..], b[1..], c[1..]); }
  }
}
