/** The planner's loops as the source runs them, each proved against module LayoutPlanner. */
module LayoutLoops {
  import opened Wrappers
  import opened Ordering
  import opened LayoutModel
  import opened LayoutRun
  import opened LayoutPlanner
  import opened LayoutBookkeeping
  import opened LayoutTheorems

  /** Scans a pending item's bases from the innermost outwards. */
  method ScanBases(g: Graph, placements: map<Path, InstanceKey>, item: Item)
    returns (already: bool, shadowedAt: int)
    ensures already == AlreadyResolves(g, placements, item)
    ensures !already ==> shadowedAt == NearestIndex(g, placements, item.bases, item.dep.name)
  {
    var i := |item.bases|;
    already, shadowedAt := false, -1;
    assert item.bases[..i] == item.bases;
    while i > 0
      invariant 0 <= i <= |item.bases|
      invariant !already && shadowedAt == -1
      invariant NearestIndex(g, placements, item.bases, item.dep.name)
                == NearestIndex(g, placements, item.bases[..i], item.dep.name)
    {
      i := i - 1;
      var target := item.bases[i] + [item.dep.name];
      assert item.bases[..i + 1][..i] == item.bases[..i];
      if Reserved(g, target) {
        shadowedAt := i;
        return;
      }
      if target in placements {
        already := placements[target] == item.dep.child;
        if !already { shadowedAt := i; }
        return;
      }
    }
  }

  /** Takes the first base at or after `first` where the name is free. */
  method SelectBase(g: Graph, placements: map<Path, InstanceKey>, item: Item, first: nat)
    returns (selected: nat)
    requires first <= |item.bases|
    ensures selected == FirstFree(g, placements, item.bases, item.dep.name, first)
  {
    selected := first;
    while selected < |item.bases|
      invariant first <= selected <= |item.bases|
      invariant FirstFree(g, placements, item.bases, item.dep.name, first)
                == FirstFree(g, placements, item.bases, item.dep.name, selected)
    {
      var target := item.bases[selected] + [item.dep.name];
      if target !in placements && !Reserved(g, target) {
        return;
      }
      selected := selected + 1;
    }
  }

  /** Places the sorted, de-duplicated roots and enqueues their children. */
  method PlaceRoots(g: Graph, roots: seq<Dependency>) returns (r: Result<State, PlanError>)
    ensures r == Seed(g, roots, EMPTY)
  {
    var pending: seq<Item>, placements: map<Path, InstanceKey> := [], map[];
    var activation: seq<ActivationStep>, reachable: set<InstanceKey> := [], {};
    var i := 0;
    while i < |roots|
      invariant 0 <= i <= |roots|
      invariant Seed(g, roots, EMPTY) == Seed(g, roots[i..], State(pending, placements, activation, reachable))
    {
      assert roots[i..][1..] == roots[i + 1..];
      var root := roots[i];
      var target := [root.name];
      if root.child !in g.storage { return Err(UnknownInstance(root.child)); }
      if Reserved(g, target) { return Err(ConflictingTarget(target)); }
      i := i + 1;
      if target in placements {
        if placements[target] != root.child { return Err(ConflictingTarget(target)); }
        continue;
      }
      placements := placements[target := root.child];
      activation := activation + [ActivationStep(g.kind, g.storage[root.child], target)];
      reachable := reachable + {root.child};
      pending := pending + Enqueued(ChildrenOf(g, root.child), [[], target], {});
    }
    return Ok(State(pending, placements, activation, reachable));
  }

  /** The body of the worklist loop, on the item at the front. */
  method ProcessFront(g: Graph, st: State) returns (r: Result<State, PlanError>)
    requires st.pending != [] && st.pending[0].bases != [] && st.pending[0].dep.child in g.storage
    ensures r == Turn(g, st)
  {
    var item, pending, placements := st.pending[0], st.pending[1..], st.placements;
    var child := item.dep.child;
    var already, shadowedAt := ScanBases(g, placements, item);
    if already {
      return Ok(State(pending, placements, st.activation, st.reachable + {child}));
    }
    var index := SelectBase(g, placements, item, shadowedAt + 1);
    if index == |item.bases| {
      return Err(ConflictingTarget(item.bases[|item.bases| - 1] + [item.dep.name]));
    }
    var target := item.bases[index] + [item.dep.name];
    placements := placements[target := child];
    var activation := st.activation + [ActivationStep(g.kind, g.storage[child], target)];
    var bases := item.bases[..index + 1] + [target];
    var seen := Seen(child, View(placements, bases, g.names));
    if seen in item.lineage {
      if !AllSeen(placements, bases, ChildrenOf(g, child)) { return Err(ConflictingTarget(target)); }
    } else {
      pending := pending + Enqueued(ChildrenOf(g, child), bases, item.lineage + {seen});
    }
    return Ok(State(pending, placements, activation, st.reachable + {child}));
  }

  /** The breadth-first worklist. It ends on every graph, cyclic and aliased ones included. */
  method DrainWorklist(g: Graph, start: State) returns (r: Result<State, PlanError>)
    requires GraphOk(g) && Inv(g, start)
    ensures r == Run(g, start)
  {
    var st := start;
    while st.pending != []
      invariant Inv(g, st)
      invariant Run(g, start) == Run(g, st)
      decreases Measure(g, st.pending)
    {
      TurnKeeps(g, st);
      var next := ProcessFront(g, st);
      if next.Err? { return next; }
      st := next.value;
    }
    return Ok(st);
  }

  /** `plan_named_layout_inner`. */
  method PlanNamedLayout(input: Input, reserved: set<Name>, platform: Platform)
    returns (r: Result<LayoutPlan, PlanError>)
    ensures r == PlanLayout(input, reserved, platform)
  {
    var graph := Validate(input, reserved, platform);
    if graph.Err? { return Err(graph.error); }
    var roots := Canonical(DependencyLe, input.roots);
    ghost var start := Start(graph.value, input.roots);
    var seeded := PlaceRoots(graph.value, roots);
    if seeded.Err? { return Err(seeded.error); }
    var searched := DrainWorklist(graph.value, seeded.value);
    if searched.Err? { return Err(searched.error); }
    return Finish(Sort(InstanceLe, input.instances), Sort(EdgeLe, input.edges), searched.value);
  }

  datatype WorkspaceLink = WorkspaceLink(name: Name, target: Path)

  /** Links are accepted when each stands at its own name below the root, and no two share one. */
  ghost predicate LinksOk(links: seq<WorkspaceLink>) {
    && (forall i :: 0 <= i < |links| ==> links[i].target == [links[i].name])
    && (forall i, j :: 0 <= i < j < |links| ==> links[i].name != links[j].name)
  }

  function LinkNames(links: seq<WorkspaceLink>): set<Name> {
    set i | 0 <= i < |links| :: links[i].name
  }

  /** The link at `i` is the first that is out of place or takes a name again. */
  ghost predicate FirstBad(links: seq<WorkspaceLink>, i: nat)
    requires i < |links|
  {
    LinksOk(links[..i]) && !LinksOk(links[..i + 1])
  }

  /** The error for a link that is out of place, and for one in place whose name is taken. */
  function LinkError(link: WorkspaceLink): PlanError {
    if link.target != [link.name] then PathOutsideManagedRoot(link.target) else ConflictingTarget([link.name])
  }

  /** Reserves the names of the workspace links. */
  method ReserveNames(links: seq<WorkspaceLink>) returns (r: Result<set<Name>, PlanError>)
    ensures r.Ok? <==> LinksOk(links)
    ensures r.Ok? ==> r.value == LinkNames(links)
    ensures r.Err? ==> exists i :: 0 <= i < |links| && FirstBad(links, i) && r.error == LinkError(links[i])
  {
    var reserved: set<Name> := {};
    var i := 0;
    while i < |links|
      invariant 0 <= i <= |links|
      invariant reserved == set j | 0 <= j < i :: links[j].name
      invariant forall j :: 0 <= j < i ==> links[j].target == [links[j].name]
      invariant forall j, k :: 0 <= j < k < i ==> links[j].name != links[k].name
    {
      assert LinksOk(links[..i]);
      assert links[..i + 1] == links[..i] + [links[i]];
      if links[i].target != [links[i].name] {
        assert !LinksOk(links[..i + 1]) by { assert links[..i + 1][i] == links[i]; }
        return Err(PathOutsideManagedRoot(links[i].target));
      }
      if links[i].name in reserved {
        assert FirstBad(links, i);
        return Err(ConflictingTarget(links[i].target));
      }
      reserved := reserved + {links[i].name};
      i := i + 1;
    }
    return Ok(reserved);
  }

  /** `plan_workspace_layout`: no activation step of the plan lands on a workspace link. */
  method PlanWorkspaceLayout(input: Input, links: seq<WorkspaceLink>, platform: Platform)
    returns (r: Result<LayoutPlan, PlanError>)
    ensures LinksOk(links) ==> r == PlanLayout(input, LinkNames(links), platform)
    ensures !LinksOk(links) ==>
              r.Err? && exists i :: 0 <= i < |links| && FirstBad(links, i) && r.error == LinkError(links[i])
    ensures r.Ok? ==> forall i, step :: 0 <= i < |links| && step in r.value.activation ==>
              step.target != links[i].target
  {
    var reserved := ReserveNames(links);
    if reserved.Err? { return Err(reserved.error); }
    r := PlanNamedLayout(input, reserved.value, platform);
    if r.Ok? { LinksStayFree(input, links, platform); }
  }

  lemma LinksStayFree(input: Input, links: seq<WorkspaceLink>, platform: Platform)
    requires LinksOk(links) && PlanLayout(input, LinkNames(links), platform).Ok?
    ensures forall i, step :: 0 <= i < |links| && step in PlanLayout(input, LinkNames(links), platform).value.activation
                              ==> step.target != links[i].target
  {
    var reserved := LinkNames(links);
    var plan := PlanLayout(input, reserved, platform).value;
    PlanIsWrittenOnce(input, reserved, platform);
    forall i, step | 0 <= i < |links| && step in plan.activation ensures step.target != links[i].target {
      assert StepMatches(Validate(input, reserved, platform).value, step, plan.placements);
      assert links[i].name in reserved;
    }
  }
}
