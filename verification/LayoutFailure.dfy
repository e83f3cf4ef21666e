/**
 When the planner fails. Every turn is stated on nearest-ancestor lookup alone, without
 the planner's bases, scans and lookup vectors; so is the exact failure of a turn, of a
 run and of a whole plan.
 */
module LayoutFailure {
  import opened Wrappers
  import opened LayoutModel
  import opened LayoutRun
  import opened LayoutResolution

  // ----- Nearest lookup, on the tables themselves -----

  /** The directory for `name` that is `k` packages deep on the way to `from` is taken. */
  ghost predicate Taken(g: Graph, placements: map<Path, InstanceKey>, from: Path, name: Name, k: nat)
    requires k <= |from|
  {
    from[..k] + [name] in placements || (k == 0 && name in g.reserved)
  }

  lemma TakenIffHeld(g: Graph, placements: map<Path, InstanceKey>, from: Path, name: Name, k: nat)
    requires k <= |from|
    ensures Taken(g, placements, from, name, k) <==> Held(g, placements, from[..k] + [name])
  {
  }

  /** The directory at depth `k` is taken, and no nearer one is. */
  ghost predicate Nearest(g: Graph, placements: map<Path, InstanceKey>, from: Path, name: Name, k: nat)
    requires k <= |from|
  {
    Taken(g, placements, from, name, k) && forall j :: k < j <= |from| ==> !Taken(g, placements, from, name, j)
  }

  /** Lookup ends in the nearest directory taken, and finds nothing only when none is. */
  lemma {:induction false} ResolveIff(g: Graph, placements: map<Path, InstanceKey>, from: Path, name: Name)
    ensures forall k :: 0 <= k <= |from| ==>
              (Resolve(g, placements, from, name) == Some(from[..k] + [name])
               <==> Nearest(g, placements, from, name, k))
    ensures Resolve(g, placements, from, name).None?
            <==> forall k :: 0 <= k <= |from| ==> !Taken(g, placements, from, name, k)
    decreases |from|
  {
    assert from[..|from|] == from;
    if Held(g, placements, from + [name]) {
      assert Taken(g, placements, from, name, |from|);
      forall k | 0 <= k <= |from|
        ensures from + [name] == from[..k] + [name] <==> k == |from| {
        assert |from[..k] + [name]| == k + 1;
      }
    } else if from != [] {
      var outer := from[..|from| - 1];
      ResolveIff(g, placements, outer, name);
      ResolveOnPath(g, placements, outer, name);
      forall k | 0 <= k < |from|
        ensures outer[..k] == from[..k]
        ensures Taken(g, placements, outer, name, k) <==> Taken(g, placements, from, name, k)
      {
        assert outer[..k] == from[..k];
      }
      assert !Taken(g, placements, from, name, |from|);
      forall k | 0 <= k <= |from|
        ensures Resolve(g, placements, from, name) == Some(from[..k] + [name])
                <==> Nearest(g, placements, from, name, k)
      {
        NearestOuter(g, placements, from, name, k);
      }
    }
  }

  lemma NearestOuter(g: Graph, placements: map<Path, InstanceKey>, from: Path, name: Name, k: nat)
    requires k <= |from| && from != [] && !Taken(g, placements, from, name, |from|)
    ensures Nearest(g, placements, from, name, k)
            <==> k < |from| && Nearest(g, placements, from[..|from| - 1], name, k)
  {
    var outer := from[..|from| - 1];
    forall j | 0 <= j < |from|
      ensures Taken(g, placements, outer, name, j) <==> Taken(g, placements, from, name, j)
    {
      assert outer[..j] == from[..j];
    }
  }

  /** An import finds its child if and only if a placement of it is the nearest directory taken. */
  lemma ResolvesIff(g: Graph, placements: map<Path, InstanceKey>, from: Path, dep: Dependency)
    ensures Resolves(g, placements, from, dep)
            <==> exists k :: 0 <= k <= |from| && Nearest(g, placements, from, dep.name, k)
                             && (k == 0 ==> dep.name !in g.reserved)
                             && from[..k] + [dep.name] in placements
                             && placements[from[..k] + [dep.name]] == dep.child
  {
    ResolveIff(g, placements, from, dep.name);
    ResolveOnPath(g, placements, from, dep.name);
    if Resolves(g, placements, from, dep) {
      var found := Resolve(g, placements, from, dep.name).value;
      var k := |found| - 1;
      assert found == from[..k] + [dep.name];
      assert Nearest(g, placements, from, dep.name, k);
    }
  }

  // ----- Lookup vectors are vectors of answers -----

  /** The placements on the way to `from` answer as nearest lookup does: workspace names sit outermost. */
  lemma {:induction false} LookupIsAnswer(g: Graph, placements: map<Path, InstanceKey>, from: Path, name: Name)
    requires forall p :: p in placements ==> !Reserved(g, p)
    ensures Lookup(placements, Prefixes(from), name) == Answer(g, placements, from, name)
    decreases |from|
  {
    var bases := Prefixes(from);
    assert bases[|bases| - 1] == from[..|from|] == from;
    if from + [name] !in placements && from != [] {
      var outer := from[..|from| - 1];
      assert bases[..|bases| - 1] == Prefixes(outer) by {
        forall i | 0 <= i <= |outer| ensures outer[..i] == from[..i] {}
      }
      LookupIsAnswer(g, placements, outer, name);
    }
  }

  /** The state records the instance with what nearest lookup from `at` answers for every lookup name. */
  ghost predicate Records(g: Graph, placements: map<Path, InstanceKey>, at: Path, key: InstanceKey, seen: Seen) {
    && seen.key == key
    && |seen.view| == |g.names|
    && (forall i :: 0 <= i < |g.names| ==> seen.view[i] == Answer(g, placements, at, g.names[i]))
  }

  lemma ViewRecords(g: Graph, placements: map<Path, InstanceKey>, at: Path, key: InstanceKey, seen: Seen)
    requires forall p :: p in placements ==> !Reserved(g, p)
    ensures Records(g, placements, at, key, seen) <==> seen == Seen(key, View(placements, Prefixes(at), g.names))
  {
    var view := View(placements, Prefixes(at), g.names);
    forall i | 0 <= i < |g.names| ensures view[i] == Answer(g, placements, at, g.names[i]) {
      LookupIsAnswer(g, placements, at, g.names[i]);
    }
    if Records(g, placements, at, key, seen) { assert seen.view == view; }
  }

  lemma AllSeenIff(g: Graph, placements: map<Path, InstanceKey>, at: Path, deps: seq<Dependency>)
    requires forall p :: p in placements ==> !Reserved(g, p)
    ensures AllSeen(placements, Prefixes(at), deps) <==> forall d :: d in deps ==> Resolves(g, placements, at, d)
  {
    forall i | 0 <= i < |deps|
      ensures Lookup(placements, Prefixes(at), deps[i].name) == Some(deps[i].child)
              <==> Resolves(g, placements, at, deps[i]) {
      LookupIsAnswer(g, placements, at, deps[i].name);
    }
    if AllSeen(placements, Prefixes(at), deps) {
      forall d | d in deps ensures Resolves(g, placements, at, d) {
        var i :| 0 <= i < |deps| && deps[i] == d;
      }
    }
  }

  // ----- One turn -----

  /** Where an edge is placed: just inside the directory that answers now, as far out as that allows. */
  ghost function NewPlace(g: Graph, placements: map<Path, InstanceKey>, from: Path, name: Name): Option<Path> {
    var found := Resolve(g, placements, from, name);
    var depth := if found.None? then 0 else |found.value|;
    if depth > |from| then None else Some(from[..depth] + [name])
  }

  lemma FilledIsNewPlace(g: Graph, st: State)
    requires GraphOk(g) && Inv(g, st) && st.pending != []
    ensures st.pending[0].bases != []
    ensures var item := st.pending[0]; var from := ParentPath(item);
            && (AlreadyResolves(g, st.placements, item) <==> Resolves(g, st.placements, from, item.dep))
            && Filled(g, st) == if Resolves(g, st.placements, from, item.dep) then None
                                else NewPlace(g, st.placements, from, item.dep.name)
  {
    var item := st.pending[0];
    assert ItemOk(g, st.placements, item);
    ScanIsResolve(g, st.placements, ParentPath(item), item.dep.name);
    ChosenIsJustInside(g, st.placements, item);
  }

  /** The front item's lineage already has the state that its placement at `at` would record. */
  ghost predicate Repeats(g: Graph, st: State, at: Path)
    requires st.pending != []
  {
    exists seen :: seen in st.pending[0].lineage
                   && Records(g, st.placements[at := st.pending[0].dep.child], at, st.pending[0].dep.child, seen)
  }

  /** Placed at `at`, some edge of the child would not find what it is locked to. */
  ghost predicate LeavesUnresolved(g: Graph, st: State, at: Path)
    requires st.pending != []
  {
    exists d :: d in ChildrenOf(g, st.pending[0].dep.child)
                && !Resolves(g, st.placements[at := st.pending[0].dep.child], at, d)
  }

  /** The parent's own directory holds the name for another child. */
  ghost predicate OwnDirectoryTaken(st: State)
    requires st.pending != [] && st.pending[0].bases != []
  {
    var own := ParentPath(st.pending[0]) + [st.pending[0].dep.name];
    own in st.placements && st.placements[own] != st.pending[0].dep.child
  }

  /** The edge would be placed where its lineage repeats, with an edge of the child unresolved. */
  ghost predicate CycleUnresolved(g: Graph, st: State)
    requires st.pending != [] && st.pending[0].bases != []
  {
    var item := st.pending[0];
    var at := NewPlace(g, st.placements, ParentPath(item), item.dep.name);
    && !Resolves(g, st.placements, ParentPath(item), item.dep)
    && at.Some? && Repeats(g, st, at.value) && LeavesUnresolved(g, st, at.value)
  }

  /** What PlaceItem does at a free directory whose bases are its prefixes. */
  lemma PlacedOutcome(g: Graph, st: State, item: Item, k: nat)
    requires k < |item.bases| && item.dep.child in g.storage
    requires var target := item.bases[k] + [item.dep.name];
             && item.bases[..k + 1] + [target] == Prefixes(target)
             && forall p :: p in st.placements[target := item.dep.child] ==> !Reserved(g, p)
    ensures var target := item.bases[k] + [item.dep.name];
            var after := st.placements[target := item.dep.child];
            var seen := Seen(item.dep.child, View(after, Prefixes(target), g.names));
            var deps := ChildrenOf(g, item.dep.child);
            && (seen in item.lineage
                <==> exists s :: s in item.lineage && Records(g, after, target, item.dep.child, s))
            && Records(g, after, target, item.dep.child, seen)
            && (PlaceItem(g, st, item, k).Err?
                <==> seen in item.lineage && exists d :: d in deps && !Resolves(g, after, target, d))
  {
    var target := item.bases[k] + [item.dep.name];
    var after := st.placements[target := item.dep.child];
    var seen := Seen(item.dep.child, View(after, Prefixes(target), g.names));
    ViewRecords(g, after, target, item.dep.child, seen);
    forall s | s in item.lineage && Records(g, after, target, item.dep.child, s) ensures s == seen {
      ViewRecords(g, after, target, item.dep.child, s);
    }
    AllSeenIff(g, after, target, ChildrenOf(g, item.dep.child));
  }

  /** The facts about the front item's new directory that PlacedOutcome needs. */
  lemma FrontPlace(g: Graph, st: State)
    requires GraphOk(g) && Inv(g, st) && st.pending != []
    requires !AlreadyResolves(g, st.placements, st.pending[0])
    requires ChosenBase(g, st.placements, st.pending[0]) < |st.pending[0].bases|
    ensures var item := st.pending[0];
            var k := ChosenBase(g, st.placements, item);
            var target := item.bases[k] + [item.dep.name];
            && item.dep.child in g.storage
            && Filled(g, st) == Some(target)
            && item.bases[..k + 1] + [target] == Prefixes(target)
            && !Held(g, st.placements, target)
            && forall p :: p in st.placements[target := item.dep.child] ==> !Reserved(g, p)
  {
    var item := st.pending[0];
    assert ItemOk(g, st.placements, item);
    FrontReady(g, st);
    FreeBase(g, st.placements, item);
    PrefixesExtend(ParentPath(item), ChosenBase(g, st.placements, item), item.dep.name);
    forall p | p in st.placements ensures !Reserved(g, p) { assert PlacementOk(g, p, st.placements[p]); }
  }

  /**
   Exact failure of one turn: the parent's own directory holds the name for another child,
   or the new directory repeats a state of the lineage while some edge from it would not
   find its child.
   */
  lemma TurnFailsIff(g: Graph, st: State)
    requires GraphOk(g) && Inv(g, st) && st.pending != []
    ensures st.pending[0].dep.child in g.storage && st.pending[0].bases != []
    ensures Turn(g, st).Err? <==> OwnDirectoryTaken(st) || CycleUnresolved(g, st)
  {
    FrontReady(g, st);
    var item := st.pending[0];
    FilledIsNewPlace(g, st);
    OwnDirectoryMeans(g, st);
    if !AlreadyResolves(g, st.placements, item) {
      ConflictMeansOwnDirectoryTaken(g, st);
      var k := ChosenBase(g, st.placements, item);
      if k < |item.bases| {
        FrontPlace(g, st);
        PlacedOutcome(g, st.(pending := st.pending[1..]), item, k);
      }
    }
  }

  /** An edge whose own directory holds another child cannot resolve. */
  lemma OwnDirectoryMeans(g: Graph, st: State)
    requires GraphOk(g) && Inv(g, st) && st.pending != [] && st.pending[0].bases != []
    ensures OwnDirectoryTaken(st)
            <==> ParentPath(st.pending[0]) + [st.pending[0].dep.name] in st.placements
                 && !Resolves(g, st.placements, ParentPath(st.pending[0]), st.pending[0].dep)
  {
    var own := ParentPath(st.pending[0]) + [st.pending[0].dep.name];
    if own in st.placements { assert PlacementOk(g, own, st.placements[own]); }
  }

  /** Which error: the own directory that is taken, or the directory that repeats. */
  lemma TurnError(g: Graph, st: State)
    requires GraphOk(g) && Inv(g, st) && st.pending != []
    requires st.pending[0].dep.child in g.storage && st.pending[0].bases != [] && Turn(g, st).Err?
    ensures var own := ParentPath(st.pending[0]) + [st.pending[0].dep.name];
            var at := NewPlace(g, st.placements, ParentPath(st.pending[0]), st.pending[0].dep.name);
            if OwnDirectoryTaken(st) then Turn(g, st) == Err(ConflictingTarget(own))
            else at.Some? && Turn(g, st) == Err(ConflictingTarget(at.value))
  {
    var item := st.pending[0];
    FilledIsNewPlace(g, st);
    OwnDirectoryMeans(g, st);
    if !AlreadyResolves(g, st.placements, item) {
      ConflictMeansOwnDirectoryTaken(g, st);
      if ChosenBase(g, st.placements, item) < |item.bases| { FrontPlace(g, st); }
    }
  }

  /** What a turn that places the front edge at `at` appends to the worklist. */
  ghost predicate Appends(g: Graph, st: State, at: Path, added: seq<Item>)
    requires st.pending != []
  {
    var item := st.pending[0];
    var deps := ChildrenOf(g, item.dep.child);
    if Repeats(g, st, at) then added == []
    else
      && |added| == |deps|
      && exists seen :: Records(g, st.placements[at := item.dep.child], at, item.dep.child, seen)
           && forall i :: 0 <= i < |deps| ==> added[i] == Item(deps[i], Prefixes(at), item.lineage + {seen})
  }

  /** The state after a turn, field by field. */
  ghost predicate StepsTo(g: Graph, st: State, next: State)
    requires st.pending != [] && st.pending[0].bases != [] && st.pending[0].dep.child in g.storage
  {
    var item := st.pending[0];
    && next.reachable == st.reachable + {item.dep.child}
    && if Resolves(g, st.placements, ParentPath(item), item.dep) then
         next.placements == st.placements && next.activation == st.activation && next.pending == st.pending[1..]
       else
         var at := NewPlace(g, st.placements, ParentPath(item), item.dep.name);
         && at.Some?
         && next.placements == st.placements[at.value := item.dep.child]
         && next.activation == st.activation + [ActivationStep(g.kind, g.storage[item.dep.child], at.value)]
         && exists added :: next.pending == st.pending[1..] + added && Appends(g, st, at.value, added)
  }

  lemma AppendedItems(g: Graph, st: State, item: Item, k: nat)
    requires st.pending != [] && item == st.pending[0]
    requires k < |item.bases| && item.dep.child in g.storage
    requires var target := item.bases[k] + [item.dep.name];
             && item.bases[..k + 1] + [target] == Prefixes(target)
             && forall p :: p in st.placements[target := item.dep.child] ==> !Reserved(g, p)
    requires PlaceItem(g, st.(pending := st.pending[1..]), item, k).Ok?
    ensures var next := PlaceItem(g, st.(pending := st.pending[1..]), item, k).value;
            exists added :: next.pending == st.pending[1..] + added
                            && Appends(g, st, item.bases[k] + [item.dep.name], added)
  {
    var popped := st.(pending := st.pending[1..]);
    var target := item.bases[k] + [item.dep.name];
    var after := st.placements[target := item.dep.child];
    var seen := Seen(item.dep.child, View(after, Prefixes(target), g.names));
    PlacedOutcome(g, popped, item, k);
    var next := PlaceItem(g, popped, item, k).value;
    var added := if seen in item.lineage then []
                 else Enqueued(ChildrenOf(g, item.dep.child), Prefixes(target), item.lineage + {seen});
    assert next.pending == st.pending[1..] + added;
    assert Appends(g, st, target, added);
  }

  /**
   Exact effect of one turn, on lookups alone: an edge that resolves is dropped; any other
   is placed just inside what answers, and its children join the back of the worklist
   unless the lineage already holds the state.
   */
  lemma TurnSteps(g: Graph, st: State)
    requires GraphOk(g) && Inv(g, st) && st.pending != []
    ensures st.pending[0].dep.child in g.storage && st.pending[0].bases != []
    ensures Turn(g, st).Ok? ==> StepsTo(g, st, Turn(g, st).value)
  {
    FrontReady(g, st);
    FilledIsNewPlace(g, st);
    TurnWritesOnce(g, st);
    var item := st.pending[0];
    if Turn(g, st).Ok? && !AlreadyResolves(g, st.placements, item) {
      FrontPlace(g, st);
      AppendedItems(g, st, item, ChosenBase(g, st.placements, item));
    }
  }

  // ----- Whole runs -----

  /** Some turn of the run from `st` fails. */
  ghost predicate GetsStuck(g: Graph, st: State)
    requires GraphOk(g) && Inv(g, st)
    decreases Measure(g, st.pending)
  {
    st.pending != []
    && (TurnKeeps(g, st);
        OwnDirectoryTaken(st) || CycleUnresolved(g, st)
        || (Turn(g, st).Ok? && GetsStuck(g, Turn(g, st).value)))
  }

  lemma {:induction false} RunFailsIff(g: Graph, st: State)
    requires GraphOk(g) && Inv(g, st)
    ensures Run(g, st).Err? <==> GetsStuck(g, st)
    ensures Run(g, st).Err? ==> Run(g, st).error.ConflictingTarget?
    decreases Measure(g, st.pending)
  {
    if st.pending != [] {
      TurnKeeps(g, st);
      TurnFailsIff(g, st);
      if Turn(g, st).Ok? { RunFailsIff(g, Turn(g, st).value); }
      else { TurnError(g, st); }
    }
  }
}
