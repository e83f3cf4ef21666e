/**
 Inputs that are always planned. When every parent gives each name to one child and no
 instance depends on itself, no turn fails: the worklist is breadth first, so a package
 finishes its own edges before anything is nested beside them.
 */
module LayoutSuccess {
  import opened Wrappers
  import opened LayoutModel
  import opened LayoutRun
  import opened LayoutResolution
  import opened LayoutPlanner
  import opened LayoutTheorems
  import opened LayoutFailure
  import opened LayoutOutcome

  ghost predicate OneChildEach(g: Graph) {
    forall k, i, j :: 0 <= i < j < |ChildrenOf(g, k)| ==> ChildrenOf(g, k)[i].name != ChildrenOf(g, k)[j].name
  }

  /** Ranks fall along every edge: the graph has no cycle. */
  ghost predicate Falls(g: Graph, rank: InstanceKey -> nat) {
    forall k, d :: d in ChildrenOf(g, k) ==> rank(d.child) < rank(k)
  }

  ghost predicate Inside(outer: Path, inner: Path) { outer < inner }

  // ----- The order of the worklist -----

  /** What is placed in a package that is itself placed. */
  ghost predicate Nested(placements: map<Path, InstanceKey>) {
    forall p, k :: p in placements && 0 < k <= |p| ==> p[..k] in placements
  }

  /** No item waits behind one whose parent lies inside its own parent. */
  ghost predicate OuterFirst(pending: seq<Item>) {
    forall i, j :: 0 <= i < j < |pending| && pending[i].bases != [] && pending[j].bases != [] ==>
      !Inside(ParentPath(pending[j]), ParentPath(pending[i]))
  }

  /** No edge waits twice. */
  ghost predicate WaitsOnce(pending: seq<Item>) {
    forall i, j :: 0 <= i < j < |pending| && pending[i].bases != [] && pending[j].bases != [] ==>
      ParentPath(pending[i]) != ParentPath(pending[j]) || pending[i].dep.name != pending[j].dep.name
  }

  /** The own directory of every waiting edge is free. */
  ghost predicate OwnFree(placements: map<Path, InstanceKey>, pending: seq<Item>) {
    forall i :: 0 <= i < |pending| && pending[i].bases != [] ==>
      ParentPath(pending[i]) + [pending[i].dep.name] !in placements
  }

  ghost predicate Tidy(placements: map<Path, InstanceKey>, pending: seq<Item>) {
    Nested(placements) && OuterFirst(pending) && WaitsOnce(pending) && OwnFree(placements, pending)
  }

  ghost predicate InOrder(st: State) { Tidy(st.placements, st.pending) }

  lemma TidyRest(placements: map<Path, InstanceKey>, pending: seq<Item>)
    requires pending != [] && Tidy(placements, pending)
    ensures Tidy(placements, pending[1..])
  {
    var rest := pending[1..];
    assert forall i :: 0 <= i < |rest| ==> rest[i] == pending[i + 1];
  }

  /** A turn writes where no other waiting edge has its own directory. */
  lemma NewPlaceIsFree(g: Graph, st: State, at: Path, j: nat)
    requires GraphOk(g) && Inv(g, st) && st.pending != [] && InOrder(st)
    requires st.pending[0].bases != []
    requires NewPlace(g, st.placements, ParentPath(st.pending[0]), st.pending[0].dep.name) == Some(at)
    requires 0 < j < |st.pending| && st.pending[j].bases != []
    ensures ParentPath(st.pending[j]) + [st.pending[j].dep.name] != at
  {
    var front, other := st.pending[0], st.pending[j];
    var own := ParentPath(other) + [other.dep.name];
    assert own[..|own| - 1] == ParentPath(other) && own[|own| - 1] == other.dep.name;
    assert at[..|at| - 1] <= ParentPath(front) && at[|at| - 1] == front.dep.name;
  }

  /** The items that a placement appends wait in its own, empty directory. */
  ghost predicate Fresh(at: Path, added: seq<Item>) {
    && (forall i :: 0 <= i < |added| ==> added[i].bases != [] && ParentPath(added[i]) == at)
    && (forall i, j :: 0 <= i < j < |added| ==> added[i].dep.name != added[j].dep.name)
  }

  lemma AppendsFresh(g: Graph, st: State, at: Path, added: seq<Item>)
    requires OneChildEach(g) && st.pending != [] && Appends(g, st, at, added)
    ensures Fresh(at, added)
  {
    assert at[..|at|] == at;
  }

  lemma OutsideIsPlaced(placements: map<Path, InstanceKey>, outer: Path, inner: Path)
    requires Nested(placements) && inner in placements && outer != [] && Inside(outer, inner)
    ensures outer in placements
  {
    assert inner[..|outer|] == outer;
  }

  /** Appending fresh items keeps the order. */
  lemma FreshKeepsOrder(placements: map<Path, InstanceKey>, pending: seq<Item>, at: Path, key: InstanceKey,
                        added: seq<Item>)
    requires Tidy(placements, pending)
    requires at != [] && at !in placements && (|at| > 1 ==> at[..|at| - 1] in placements)
    requires forall i :: 0 <= i < |pending| ==> pending[i].bases != [] && ParentPath(pending[i]) in placements
    requires forall i :: 0 <= i < |pending| ==> ParentPath(pending[i]) + [pending[i].dep.name] != at
    requires Fresh(at, added)
    ensures Tidy(placements[at := key], pending + added)
  {
    var after, all := placements[at := key], pending + added;
    forall i | 0 <= i < |pending| ensures ParentPath(pending[i]) != at && !Inside(at, ParentPath(pending[i])) {
      if Inside(at, ParentPath(pending[i])) { OutsideIsPlaced(placements, at, ParentPath(pending[i])); }
    }
    forall p, k | p in after && 0 < k <= |p| ensures p[..k] in after {
      if p == at && k < |at| { assert at[..k] == at[..|at| - 1][..k]; }
      if p == at && k == |at| { assert at[..k] == at; }
    }
    forall i | |pending| <= i < |all| ensures ParentPath(all[i]) + [all[i].dep.name] !in after {
      var own := at + [all[i].dep.name];
      assert all[i] == added[i - |pending|];
      assert own[..|at|] == at;
    }
  }

  lemma TurnKeepsOrder(g: Graph, st: State)
    requires GraphOk(g) && Inv(g, st) && st.pending != [] && OneChildEach(g) && InOrder(st)
    requires st.pending[0].dep.child in g.storage && st.pending[0].bases != [] && Turn(g, st).Ok?
    ensures InOrder(Turn(g, st).value)
  {
    var item, next := st.pending[0], Turn(g, st).value;
    TurnSteps(g, st);
    TidyRest(st.placements, st.pending);
    if !Resolves(g, st.placements, ParentPath(item), item.dep) {
      var at := NewPlace(g, st.placements, ParentPath(item), item.dep.name).value;
      var added: seq<Item> :| next.pending == st.pending[1..] + added && Appends(g, st, at, added);
      AppendsFresh(g, st, at, added);
      RestIsApart(g, st, at);
      FreshKeepsOrder(st.placements, st.pending[1..], at, item.dep.child, added);
    }
  }

  /** What a turn that places an edge leaves in the worklist has its own directories elsewhere. */
  lemma RestIsApart(g: Graph, st: State, at: Path)
    requires GraphOk(g) && Inv(g, st) && st.pending != [] && InOrder(st)
    requires st.pending[0].dep.child in g.storage && st.pending[0].bases != [] && Turn(g, st).Ok?
    requires !Resolves(g, st.placements, ParentPath(st.pending[0]), st.pending[0].dep)
    requires NewPlace(g, st.placements, ParentPath(st.pending[0]), st.pending[0].dep.name) == Some(at)
    ensures at != [] && at !in st.placements && (|at| > 1 ==> at[..|at| - 1] in st.placements)
    ensures forall i :: 0 <= i < |st.pending[1..]| ==>
              && st.pending[1..][i].bases != [] && ParentPath(st.pending[1..][i]) in st.placements
              && ParentPath(st.pending[1..][i]) + [st.pending[1..][i].dep.name] != at
  {
    var from, rest := ParentPath(st.pending[0]), st.pending[1..];
    assert ItemOk(g, st.placements, st.pending[0]);
    FilledIsNewPlace(g, st);
    TurnWritesOnce(g, st);
    assert at[..|at| - 1] == from[..|at| - 1];
    forall i | 0 <= i < |rest|
      ensures rest[i].bases != [] && ParentPath(rest[i]) in st.placements
      ensures ParentPath(rest[i]) + [rest[i].dep.name] != at
    {
      assert ItemOk(g, st.placements, st.pending[i + 1]);
      NewPlaceIsFree(g, st, at, i + 1);
    }
  }

  lemma OrderMeansOwnFree(g: Graph, st: State)
    requires st.pending != [] && st.pending[0].bases != [] && InOrder(st)
    ensures !OwnDirectoryTaken(st)
  {
  }

  // ----- Lineages without cycles -----

  /** Everything in an item's lineage ranks above the child that waits. */
  ghost predicate Above(rank: InstanceKey -> nat, item: Item) {
    forall s :: s in item.lineage ==> rank(s.key) > rank(item.dep.child)
  }

  ghost predicate AllAbove(rank: InstanceKey -> nat, pending: seq<Item>) {
    forall i :: 0 <= i < |pending| ==> Above(rank, pending[i])
  }

  lemma AboveNeverRepeats(g: Graph, st: State, rank: InstanceKey -> nat)
    requires st.pending != [] && st.pending[0].bases != [] && AllAbove(rank, st.pending)
    ensures !CycleUnresolved(g, st)
  {
    assert Above(rank, st.pending[0]);
  }

  lemma TurnKeepsAbove(g: Graph, st: State, rank: InstanceKey -> nat)
    requires GraphOk(g) && Inv(g, st) && st.pending != [] && Falls(g, rank) && AllAbove(rank, st.pending)
    requires st.pending[0].dep.child in g.storage && st.pending[0].bases != [] && Turn(g, st).Ok?
    ensures AllAbove(rank, Turn(g, st).value.pending)
  {
    var item, next := st.pending[0], Turn(g, st).value;
    TurnSteps(g, st);
    assert Above(rank, item);
    if !Resolves(g, st.placements, ParentPath(item), item.dep) {
      var at := NewPlace(g, st.placements, ParentPath(item), item.dep.name).value;
      var added: seq<Item> :| next.pending == st.pending[1..] + added && Appends(g, st, at, added);
      forall i | 0 <= i < |added| ensures Above(rank, added[i]) {
        assert added[i].dep == ChildrenOf(g, item.dep.child)[i];
        assert added[i].dep in ChildrenOf(g, item.dep.child);
      }
    }
  }

  // ----- Whole runs -----

  /** Where every name of a parent has one child, a run fails only at a repeated state. */
  lemma {:induction false} OneChildRun(g: Graph, st: State)
    requires GraphOk(g) && Inv(g, st) && OneChildEach(g) && InOrder(st)
    ensures GetsStuck(g, st) <==> RepeatsUnresolved(g, st)
    decreases Measure(g, st.pending)
  {
    if st.pending != [] {
      TurnKeeps(g, st);
      TurnFailsIff(g, st);
      OrderMeansOwnFree(g, st);
      if Turn(g, st).Ok? {
        TurnKeepsOrder(g, st);
        OneChildRun(g, Turn(g, st).value);
      }
    }
  }

  /** Some turn of the run repeats a state of its lineage while an edge of the new package stays unresolved. */
  ghost predicate RepeatsUnresolved(g: Graph, st: State)
    requires GraphOk(g) && Inv(g, st)
    decreases Measure(g, st.pending)
  {
    st.pending != []
    && (TurnKeeps(g, st);
        CycleUnresolved(g, st) || (Turn(g, st).Ok? && RepeatsUnresolved(g, Turn(g, st).value)))
  }

  lemma {:induction false} FallingRun(g: Graph, st: State, rank: InstanceKey -> nat)
    requires GraphOk(g) && Inv(g, st) && Falls(g, rank) && AllAbove(rank, st.pending)
    ensures !RepeatsUnresolved(g, st)
    decreases Measure(g, st.pending)
  {
    if st.pending != [] {
      TurnKeeps(g, st);
      AboveNeverRepeats(g, st, rank);
      if Turn(g, st).Ok? {
        TurnKeepsAbove(g, st, rank);
        FallingRun(g, Turn(g, st).value, rank);
      }
    }
  }

  // ----- Where the worklist starts -----

  /** Root items wait in the directories of different roots, with nothing in their lineage. */
  ghost predicate RootLike(roots: seq<Dependency>, item: Item) {
    && item.lineage == {} && |item.bases| == 2
    && |ParentPath(item)| == 1 && exists d :: d in roots && ParentPath(item) == [d.name]
  }

  lemma {:induction false} RootItemsAreRootLike(g: Graph, roots: seq<Dependency>)
    ensures forall i :: 0 <= i < |RootItems(g, roots)| ==> RootLike(roots, RootItems(g, roots)[i])
  {
    if roots != [] {
      RootItemsAreRootLike(g, roots[1..]);
      var deps, rest, all := ChildrenOf(g, roots[0].child), RootItems(g, roots[1..]), RootItems(g, roots);
      assert roots[0] in roots;
      forall i | 0 <= i < |all| ensures RootLike(roots, all[i]) {
        if i >= |deps| {
          assert all[i] == rest[i - |deps|];
          var d :| d in roots[1..] && ParentPath(all[i]) == [d.name];
          assert d in roots;
        }
      }
    }
  }

  lemma {:induction false} RootItemsWaitOnce(g: Graph, roots: seq<Dependency>)
    requires OneChildEach(g) && forall i, j :: 0 <= i < j < |roots| ==> roots[i].name != roots[j].name
    ensures WaitsOnce(RootItems(g, roots))
  {
    if roots != [] {
      var deps, rest := ChildrenOf(g, roots[0].child), RootItems(g, roots[1..]);
      var first := seq(|deps|, i requires 0 <= i < |deps| => Item(deps[i], [[], [roots[0].name]], {}));
      RootItemsWaitOnce(g, roots[1..]);
      RootItemsAreRootLike(g, roots[1..]);
      OtherRootsDiffer(roots, rest);
      JoinedWaitsOnce(first, rest, [roots[0].name]);
      assert RootItems(g, roots) == first + rest;
    }
  }

  /** Items of one directory, each with its own name, in front of items of other directories. */
  lemma JoinedWaitsOnce(first: seq<Item>, rest: seq<Item>, at: Path)
    requires WaitsOnce(rest) && Fresh(at, first)
    requires forall i :: 0 <= i < |rest| ==> rest[i].bases != [] && ParentPath(rest[i]) != at
    ensures WaitsOnce(first + rest)
  {
    var all := first + rest;
    forall i, j | 0 <= i < j < |all| && all[i].bases != [] && all[j].bases != []
      ensures ParentPath(all[i]) != ParentPath(all[j]) || all[i].dep.name != all[j].dep.name
    {
      if i >= |first| {
        assert all[i] == rest[i - |first|] && all[j] == rest[j - |first|];
      } else if j >= |first| {
        assert all[j] == rest[j - |first|];
      }
    }
  }

  lemma OtherRootsDiffer(roots: seq<Dependency>, rest: seq<Item>)
    requires roots != [] && forall i, j :: 0 <= i < j < |roots| ==> roots[i].name != roots[j].name
    requires forall i :: 0 <= i < |rest| ==> RootLike(roots[1..], rest[i])
    ensures forall i :: 0 <= i < |rest| ==> rest[i].bases != [] && ParentPath(rest[i]) != [roots[0].name]
  {
    forall i | 0 <= i < |rest| ensures rest[i].bases != [] && ParentPath(rest[i]) != [roots[0].name] {
      assert RootLike(roots[1..], rest[i]);
      var d :| d in roots[1..] && ParentPath(rest[i]) == [d.name];
      var j :| 0 <= j < |roots[1..]| && roots[1..][j] == d;
      assert roots[j + 1] == d;
    }
  }

  lemma StartInOrder(g: Graph, roots: seq<Dependency>)
    requires GraphOk(g) && OneChildEach(g) && Start(g, roots).Ok?
    ensures InOrder(Start(g, roots).value)
    ensures forall rank: InstanceKey -> nat :: AllAbove(rank, Start(g, roots).value.pending)
  {
    StartIsRoots(g, roots);
    RootsInOrder(g, roots, Start(g, roots).value);
  }

  lemma RootsInOrder(g: Graph, roots: seq<Dependency>, st: State)
    requires OneChildEach(g) && StartsFrom(g, roots, st)
    ensures InOrder(st) && forall rank: InstanceKey -> nat :: AllAbove(rank, st.pending)
  {
    var sorted: seq<Dependency> :| IsSortedRoots(roots, sorted) && st.pending == RootItems(g, sorted);
    SortedNamesDiffer(g, roots, sorted, st);
    RootItemsWaitOnce(g, sorted);
    RootItemsAreRootLike(g, sorted);
    forall p, k | p in st.placements && 0 < k <= |p| ensures p[..k] in st.placements { assert p[..k] == p; }
    forall i | 0 <= i < |st.pending|
      ensures st.pending[i].lineage == {} && st.pending[i].bases != [] && |ParentPath(st.pending[i])| == 1
    {
      assert RootLike(sorted, st.pending[i]);
    }
  }

  lemma SortedNamesDiffer(g: Graph, roots: seq<Dependency>, sorted: seq<Dependency>, st: State)
    requires StartsFrom(g, roots, st) && IsSortedRoots(roots, sorted)
    ensures forall i, j :: 0 <= i < j < |sorted| ==> sorted[i].name != sorted[j].name
  {
    forall i, j | 0 <= i < j < |sorted| ensures sorted[i].name != sorted[j].name {
      assert sorted[i] in roots && sorted[j] in roots && Before(sorted[i], sorted[j]);
      assert st.placements[[sorted[i].name]] == sorted[i].child;
      assert st.placements[[sorted[j].name]] == sorted[j].child;
    }
  }

  // ----- On the planner's input -----

  /** Every parent gives each name to one child. */
  ghost predicate EdgesAgree(edges: seq<Edge>) {
    forall d, e :: d in edges && e in edges && d.parent == e.parent && d.dependency.name == e.dependency.name
                   ==> d.dependency.child == e.dependency.child
  }

  /** Ranks fall along every edge: no instance depends on itself, directly or not. */
  ghost predicate Acyclic(edges: seq<Edge>, rank: InstanceKey -> nat) {
    forall e :: e in edges ==> rank(e.dependency.child) < rank(e.parent)
  }

  lemma OneChildOfEdges(g: Graph, edges: seq<Edge>)
    requires ChildrenSorted(g) && EdgesAgree(edges)
    requires forall k, d :: d in ChildrenOf(g, k) <==> Edge(k, d) in edges
    ensures OneChildEach(g)
  {
    forall k, i, j | 0 <= i < j < |ChildrenOf(g, k)|
      ensures ChildrenOf(g, k)[i].name != ChildrenOf(g, k)[j].name
    {
      var a, b := ChildrenOf(g, k)[i], ChildrenOf(g, k)[j];
      assert Before(a, b);
      assert a in ChildrenOf(g, k) && b in ChildrenOf(g, k);
      assert Edge(k, a) in edges && Edge(k, b) in edges;
      assert Edge(k, a).dependency == a && Edge(k, b).dependency == b;
    }
  }

  lemma InputOneChildEach(input: Input, reserved: set<Name>, platform: Platform)
    requires Validate(input, reserved, platform).Ok? && EdgesAgree(input.edges)
    ensures OneChildEach(Validate(input, reserved, platform).value)
  {
    GraphIsInput(input, reserved, platform);
    OneChildOfEdges(Validate(input, reserved, platform).value, input.edges);
  }

  /**
   Where every parent gives each name to one child, the own directory of an edge is always
   free, and the worklist fails only by repeating a state with an edge unresolved.
   */
  lemma OneChildStuckIff(input: Input, reserved: set<Name>, platform: Platform)
    requires Validate(input, reserved, platform).Ok? && EdgesAgree(input.edges)
    ensures var g := Validate(input, reserved, platform).value;
            WorklistGetsStuck(g, input.roots)
            <==> Start(g, input.roots).Ok? && RepeatsUnresolved(g, Start(g, input.roots).value)
  {
    var g := Validate(input, reserved, platform).value;
    InputOneChildEach(input, reserved, platform);
    if Start(g, input.roots).Ok? {
      StartInOrder(g, input.roots);
      OneChildRun(g, Start(g, input.roots).value);
    }
  }

  /**
   An acyclic input whose parents give each name to one child is planned if and only if it is
   valid, its roots agree and every edge starts at a reachable instance: hoisting never fails.
   */
  lemma AcyclicIsPlannedIff(input: Input, reserved: set<Name>, platform: Platform, rank: InstanceKey -> nat)
    requires EdgesAgree(input.edges) && Acyclic(input.edges, rank)
    ensures PlanLayout(input, reserved, platform).Ok?
            <==> && platform != Other && DistinctKeys(input.instances) && EdgesKnown(input)
                 && RootsOk(input, reserved)
                 && forall e :: e in input.edges ==> !Unreachable(input, e.parent)
  {
    PlanFailsIff(input, reserved, platform);
    ValidateOkIff(input, reserved, platform);
    if Validate(input, reserved, platform).Ok? {
      var g := Validate(input, reserved, platform).value;
      OneChildStuckIff(input, reserved, platform);
      InputOneChildEach(input, reserved, platform);
      if Start(g, input.roots).Ok? {
        StartInOrder(g, input.roots);
        InputFalls(input, reserved, platform, rank);
        FallingRun(g, Start(g, input.roots).value, rank);
      }
    }
  }

  lemma InputFalls(input: Input, reserved: set<Name>, platform: Platform, rank: InstanceKey -> nat)
    requires Validate(input, reserved, platform).Ok? && Acyclic(input.edges, rank)
    ensures Falls(Validate(input, reserved, platform).value, rank)
  {
    var g := Validate(input, reserved, platform).value;
    forall k, d | d in ChildrenOf(g, k) ensures rank(d.child) < rank(k) {
      assert Edge(k, d) in input.edges && Edge(k, d).dependency == d && Edge(k, d).parent == k;
    }
  }
}
