/**
 What the planner guarantees about nearest-ancestor lookup: the edge it finishes
 resolves, a placement changes another lookup exactly when it shadows it, and the
 final layout resolves every import of a name that is never shadowed late.
 */
module LayoutResolution {
  import opened Wrappers
  import opened LayoutModel
  import opened LayoutRun

  // ----- The scan over bases is nearest-ancestor lookup -----

  /** Scanning the bases inwards-out finds exactly what nearest lookup finds. */
  lemma {:induction false} ScanIsResolve(g: Graph, placements: map<Path, InstanceKey>, from: Path, name: Name)
    ensures var i := NearestIndex(g, placements, Prefixes(from), name);
            Resolve(g, placements, from, name) == if i < 0 then None else Some(from[..i] + [name])
    decreases |from|
  {
    var bases := Prefixes(from);
    assert bases[|bases| - 1] == from[..|from|] == from;
    if from != [] {
      var outer := from[..|from| - 1];
      assert bases[..|bases| - 1] == Prefixes(outer) by {
        forall i | 0 <= i <= |outer| ensures outer[..i] == from[..i] {}
      }
      ScanIsResolve(g, placements, outer, name);
      var i := NearestIndex(g, placements, Prefixes(outer), name);
      assert i >= 0 ==> outer[..i] == from[..i];
    }
  }

  lemma {:induction false} NothingHeldNearer(g: Graph, placements: map<Path, InstanceKey>, bases: seq<Path>, name: Name,
                                             j: nat)
    requires NearestIndex(g, placements, bases, name) < j < |bases|
    ensures !Held(g, placements, bases[j] + [name])
  {
    if j < |bases| - 1 { NothingHeldNearer(g, placements, bases[..|bases| - 1], name, j); }
  }

  /** The base chosen is the one just inside the nearest holder. */
  lemma ChosenIsJustInside(g: Graph, placements: map<Path, InstanceKey>, item: Item)
    ensures ChosenBase(g, placements, item) == NearestIndex(g, placements, item.bases, item.dep.name) + 1
  {
    var i := NearestIndex(g, placements, item.bases, item.dep.name);
    if i + 1 < |item.bases| { NothingHeldNearer(g, placements, item.bases, item.dep.name, i + 1); }
  }

  /** A lookup recorded in a lineage state is a real resolution: workspace names sit outermost. */
  lemma {:induction false} LookupIsResolve(g: Graph, placements: map<Path, InstanceKey>, from: Path, dep: Dependency)
    requires forall p :: p in placements ==> !Reserved(g, p)
    requires Lookup(placements, Prefixes(from), dep.name) == Some(dep.child)
    ensures Resolves(g, placements, from, dep)
    decreases |from|
  {
    var bases := Prefixes(from);
    assert bases[|bases| - 1] == from[..|from|] == from;
    if from + [dep.name] !in placements {
      if from != [] {
        var outer := from[..|from| - 1];
        assert bases[..|bases| - 1] == Prefixes(outer) by {
          forall i | 0 <= i <= |outer| ensures outer[..i] == from[..i] {}
        }
        LookupIsResolve(g, placements, outer, dep);
      }
    }
  }

  // ----- The frame of one placement -----

  /** `target` is one of the directories that a lookup of `name` from `from` tries. */
  predicate OnLookupPath(target: Path, from: Path, name: Name) {
    0 < |target| <= |from| + 1 && target == from[..|target| - 1] + [name]
  }

  /** A new placement answers this lookup: it is tried, and before the current answer. */
  predicate Overtakes(g: Graph, placements: map<Path, InstanceKey>, target: Path, from: Path, name: Name) {
    var found := Resolve(g, placements, from, name);
    OnLookupPath(target, from, name) && (found.None? || |found.value| < |target|)
  }

  lemma OuterLookupPath(target: Path, from: Path, name: Name)
    requires from != []
    ensures OnLookupPath(target, from, name)
            <==> target == from + [name] || OnLookupPath(target, from[..|from| - 1], name)
  {
    assert from[..|from|] == from;
    var outer := from[..|from| - 1];
    assert forall i :: 0 <= i <= |outer| ==> outer[..i] == from[..i];
  }

  lemma {:induction false} ResolveOnPath(g: Graph, placements: map<Path, InstanceKey>, from: Path, name: Name)
    ensures var found := Resolve(g, placements, from, name);
            found.Some? ==> OnLookupPath(found.value, from, name) && Held(g, placements, found.value)
    decreases |from|
  {
    assert from[..|from|] == from;
    if !Held(g, placements, from + [name]) && from != [] {
      ResolveOnPath(g, placements, from[..|from| - 1], name);
      var found := Resolve(g, placements, from, name);
      if found.Some? { OuterLookupPath(found.value, from, name); }
    }
  }

  /** Exact frame: a placement changes a lookup if and only if it overtakes its answer. */
  lemma {:induction false} PlacementFrame(g: Graph, placements: map<Path, InstanceKey>, target: Path, key: InstanceKey,
                                          from: Path, name: Name)
    requires !Held(g, placements, target)
    ensures Resolve(g, placements[target := key], from, name)
            == if Overtakes(g, placements, target, from, name) then Some(target)
               else Resolve(g, placements, from, name)
    decreases |from|
  {
    var after := placements[target := key];
    var here := from + [name];
    ResolveOnPath(g, placements, from, name);
    assert from[..|from|] == from;
    assert Held(g, after, here) <==> Held(g, placements, here) || here == target;
    if here != target && !Held(g, placements, here) && from != [] {
      PlacementFrame(g, placements, target, key, from[..|from| - 1], name);
      OuterLookupPath(target, from, name);
    }
  }

  /** Any placement nearer than the holder answers the lookup; one behind it does not. */
  lemma InnerPlacementIsSeen(g: Graph, placements: map<Path, InstanceKey>, from: Path, dep: Dependency, k: nat)
    requires k <= |from| && !Held(g, placements, from[..k] + [dep.name])
    ensures Resolves(g, placements[from[..k] + [dep.name] := dep.child], from, dep)
            <==> NearestIndex(g, placements, Prefixes(from), dep.name) < k
                 || Resolves(g, placements, from, dep)
  {
    var target := from[..k] + [dep.name];
    PlacementFrame(g, placements, target, dep.child, from, dep.name);
    ScanIsResolve(g, placements, from, dep.name);
    ResolveOnPath(g, placements, from, dep.name);
  }

  // ----- One turn -----

  /** The directory that a turn fills, if it fills one. */
  function Filled(g: Graph, st: State): Option<Path>
    requires st.pending != [] && st.pending[0].bases != []
  {
    var item := st.pending[0];
    if AlreadyResolves(g, st.placements, item) || ChosenBase(g, st.placements, item) == |item.bases| then None
    else Some(item.bases[ChosenBase(g, st.placements, item)] + [item.dep.name])
  }

  /** A successful turn adds at most one placement, in a directory that held nothing. */
  lemma TurnWritesOnce(g: Graph, st: State)
    requires GraphOk(g) && Inv(g, st) && st.pending != []
    ensures st.pending[0].dep.child in g.storage && st.pending[0].bases != []
    ensures Turn(g, st).Ok? ==>
              var next := Turn(g, st).value;
              match Filled(g, st)
              case None => next.placements == st.placements
              case Some(t) => !Held(g, st.placements, t)
                              && next.placements == st.placements[t := st.pending[0].dep.child]
  {
    FrontReady(g, st);
    var item := st.pending[0];
    if ChosenBase(g, st.placements, item) < |item.bases| { FreeBase(g, st.placements, item); }
  }

  /** Step theorem: after its turn, the edge resolves to exactly the locked child. */
  lemma TurnResolves(g: Graph, st: State)
    requires GraphOk(g) && Inv(g, st) && st.pending != []
    ensures st.pending[0].dep.child in g.storage && st.pending[0].bases != []
    ensures Turn(g, st).Ok? ==>
              Resolves(g, Turn(g, st).value.placements, ParentPath(st.pending[0]), st.pending[0].dep)
  {
    TurnWritesOnce(g, st);
    var item := st.pending[0];
    assert ItemOk(g, st.placements, item);
    var from := ParentPath(item);
    ScanIsResolve(g, st.placements, from, item.dep.name);
    if Turn(g, st).Ok? && !AlreadyResolves(g, st.placements, item) {
      ChosenIsJustInside(g, st.placements, item);
      InnerPlacementIsSeen(g, st.placements, from, item.dep, ChosenBase(g, st.placements, item));
    }
  }

  /**
   Hoisting is outermost: every base outside the chosen one is either taken or
   hidden from the parent, so a placement there would not resolve the edge.
   */
  lemma TurnHoistsOutermost(g: Graph, st: State, j: nat)
    requires GraphOk(g) && Inv(g, st) && st.pending != []
    requires st.pending[0].bases != [] && Filled(g, st).Some?
    requires j < ChosenBase(g, st.placements, st.pending[0])
    ensures j < |st.pending[0].bases|
    ensures var item := st.pending[0];
            var outer := item.bases[j] + [item.dep.name];
            Held(g, st.placements, outer)
            || !Resolves(g, st.placements[outer := item.dep.child], ParentPath(item), item.dep)
  {
    var item := st.pending[0];
    assert ItemOk(g, st.placements, item);
    var from := ParentPath(item);
    ChosenIsJustInside(g, st.placements, item);
    ScanIsResolve(g, st.placements, from, item.dep.name);
    if !Held(g, st.placements, item.bases[j] + [item.dep.name]) {
      InnerPlacementIsSeen(g, st.placements, from, item.dep, j);
    }
  }

  /** A turn fails for want of a base only when the parent's own directory holds something else. */
  lemma ConflictMeansOwnDirectoryTaken(g: Graph, st: State)
    requires GraphOk(g) && Inv(g, st) && st.pending != []
    requires st.pending[0].bases != [] && !AlreadyResolves(g, st.placements, st.pending[0])
    ensures ChosenBase(g, st.placements, st.pending[0]) == |st.pending[0].bases|
            <==> ParentPath(st.pending[0]) + [st.pending[0].dep.name] in st.placements
  {
    var item := st.pending[0];
    assert ItemOk(g, st.placements, item);
    ChosenIsJustInside(g, st.placements, item);
    var last := |item.bases| - 1;
    assert PlacementOk(g, ParentPath(item), st.placements[ParentPath(item)]);
    if NearestIndex(g, st.placements, item.bases, item.dep.name) < last {
      NothingHeldNearer(g, st.placements, item.bases, item.dep.name, last);
    } else {
      ScanIsResolve(g, st.placements, ParentPath(item), item.dep.name);
      ResolveOnPath(g, st.placements, ParentPath(item), item.dep.name);
    }
  }

  /**
   An edge that resolves before a turn resolves after it if and only if the turn
   does not overtake it. In particular an overtaken edge never stays right by luck:
   the planner only nests a package under a holder of another identity.
   */
  lemma TurnKeepsEdgeIff(g: Graph, st: State, from: Path, dep: Dependency)
    requires GraphOk(g) && Inv(g, st) && st.pending != []
    requires st.pending[0].bases != []
    requires Resolves(g, st.placements, from, dep)
    requires st.pending[0].dep.child in g.storage && Turn(g, st).Ok?
    ensures Resolves(g, Turn(g, st).value.placements, from, dep)
            <==> !(Filled(g, st).Some? && Overtakes(g, st.placements, Filled(g, st).value, from, dep.name))
  {
    TurnWritesOnce(g, st);
    if Filled(g, st).Some? {
      var item := st.pending[0];
      var target := Filled(g, st).value;
      PlacementFrame(g, st.placements, target, item.dep.child, from, dep.name);
      if Overtakes(g, st.placements, target, from, dep.name) {
        OvertakenSeesAnother(g, st, from, dep);
      }
    }
  }

  /** Two packages under the same directory share the part of their lookup paths outside it. */
  lemma SharedLookupPath(g: Graph, placements: map<Path, InstanceKey>, parent: Path, from: Path, name: Name, k: nat)
    requires k <= |parent| && parent[..k] <= from
    requires Resolve(g, placements, from, name).Some? && |Resolve(g, placements, from, name).value| <= k
    requires NearestIndex(g, placements, Prefixes(parent), name) == k - 1
    ensures k >= 1 && Resolve(g, placements, from, name) == Some(parent[..k - 1] + [name])
  {
    var found := Resolve(g, placements, from, name).value;
    var i := NearestIndex(g, placements, Prefixes(from), name);
    ScanIsResolve(g, placements, from, name);
    ScanIsResolve(g, placements, parent, name);
    ResolveOnPath(g, placements, from, name);
    ResolveOnPath(g, placements, parent, name);
    assert found == from[..i] + [name];
    assert from[..k] == parent[..k];
    assert from[..i] == from[..k][..i] == parent[..i];
    assert k >= 1;
    assert from[..k - 1] == from[..k][..k - 1] == parent[..k - 1];
    HeldBoundsNearest(g, placements, Prefixes(from), name, k - 1);
  }

  lemma HeldBoundsNearest(g: Graph, placements: map<Path, InstanceKey>, bases: seq<Path>, name: Name, j: nat)
    requires j < |bases| && Held(g, placements, bases[j] + [name])
    ensures j <= NearestIndex(g, placements, bases, name)
  {
    if NearestIndex(g, placements, bases, name) < j { NothingHeldNearer(g, placements, bases, name, j); }
  }

  lemma OvertakenSeesAnother(g: Graph, st: State, from: Path, dep: Dependency)
    requires GraphOk(g) && Inv(g, st) && st.pending != []
    requires st.pending[0].bases != [] && Filled(g, st).Some?
    requires Resolves(g, st.placements, from, dep)
    requires Overtakes(g, st.placements, Filled(g, st).value, from, dep.name)
    ensures st.pending[0].dep.child != dep.child
  {
    var item := st.pending[0];
    assert ItemOk(g, st.placements, item);
    var k := ChosenBase(g, st.placements, item);
    ChosenIsJustInside(g, st.placements, item);
    assert Filled(g, st).value[..k] == item.bases[k] == ParentPath(item)[..k];
    SharedLookupPath(g, st.placements, ParentPath(item), from, dep.name, k);
    assert item.bases[k - 1] == ParentPath(item)[..k - 1];
  }

  // ----- Whole runs -----

  ghost predicate IsPending(st: State, from: Path, dep: Dependency) {
    exists i :: 0 <= i < |st.pending| && st.pending[i].bases != []
                && ParentPath(st.pending[i]) == from && st.pending[i].dep == dep
  }

  ghost predicate EdgeAt(g: Graph, st: State, from: Path, dep: Dependency) {
    from in st.placements && dep in ChildrenOf(g, st.placements[from])
  }

  /** Every edge named `name` of every placement is still pending or resolves. */
  ghost predicate Settled(g: Graph, st: State, name: Name) {
    forall from, dep :: EdgeAt(g, st, from, dep) && dep.name == name
                        ==> IsPending(st, from, dep) || Resolves(g, st.placements, from, dep)
  }

  /** The turn overtakes an edge that had already been finished. */
  ghost predicate ShadowsLate(g: Graph, st: State, name: Name)
    requires st.pending != [] && st.pending[0].bases != []
  {
    Filled(g, st).Some?
    && exists from, dep :: EdgeAt(g, st, from, dep) && dep.name == name && !IsPending(st, from, dep)
                           && Overtakes(g, st.placements, Filled(g, st).value, from, name)
  }

  /** No turn of the run from `st` shadows a finished edge named `name`. */
  ghost predicate NeverShadowedLate(g: Graph, st: State, name: Name)
    requires GraphOk(g) && Inv(g, st)
    decreases Measure(g, st.pending)
  {
    if st.pending == [] then true
    else
      TurnKeeps(g, st);
      Turn(g, st).Ok? ==> !ShadowsLate(g, st, name) && NeverShadowedLate(g, Turn(g, st).value, name)
  }

  /** Every state that the run from `st` goes through has `name` settled. */
  ghost predicate SettledThroughout(g: Graph, st: State, name: Name)
    requires GraphOk(g) && Inv(g, st)
    decreases Measure(g, st.pending)
  {
    Settled(g, st, name)
    && (st.pending == [] || (TurnKeeps(g, st); Turn(g, st).Ok? ==> SettledThroughout(g, Turn(g, st).value, name)))
  }

  lemma StillPending(g: Graph, st: State, from: Path, dep: Dependency)
    requires GraphOk(g) && Inv(g, st) && st.pending != []
    requires st.pending[0].dep.child in g.storage && st.pending[0].bases != [] && Turn(g, st).Ok?
    requires IsPending(st, from, dep) && !(from == ParentPath(st.pending[0]) && dep == st.pending[0].dep)
    ensures IsPending(Turn(g, st).value, from, dep)
  {
    var i :| 0 <= i < |st.pending| && st.pending[i].bases != []
             && ParentPath(st.pending[i]) == from && st.pending[i].dep == dep;
    assert i > 0;
    assert Turn(g, st).value.pending[i - 1] == st.pending[i];
  }

  /** The children of a fresh placement are enqueued, or all resolve at once. */
  lemma FreshEdges(g: Graph, st: State, dep: Dependency)
    requires GraphOk(g) && Inv(g, st) && st.pending != []
    requires st.pending[0].dep.child in g.storage && st.pending[0].bases != [] && Turn(g, st).Ok?
    requires Filled(g, st).Some? && dep in ChildrenOf(g, st.pending[0].dep.child)
    ensures IsPending(Turn(g, st).value, Filled(g, st).value, dep)
            || Resolves(g, Turn(g, st).value.placements, Filled(g, st).value, dep)
  {
    var item := st.pending[0];
    assert ItemOk(g, st.placements, item);
    TurnKeeps(g, st);
    var next := Turn(g, st).value;
    assert forall p :: p in next.placements ==> PlacementOk(g, p, next.placements[p]);
    var k := ChosenBase(g, st.placements, item);
    PrefixesExtend(ParentPath(item), k, item.dep.name);
    FreshEdgesPlaced(g, st.(pending := st.pending[1..]), item, k, dep);
  }

  lemma FreshEdgesPlaced(g: Graph, st: State, item: Item, k: nat, dep: Dependency)
    requires k < |item.bases| && item.dep.child in g.storage
    requires PlaceItem(g, st, item, k).Ok?
    requires var target := item.bases[k] + [item.dep.name];
             item.bases[..k + 1] + [target] == Prefixes(target)
    requires forall p :: p in PlaceItem(g, st, item, k).value.placements ==> !Reserved(g, p)
    requires dep in ChildrenOf(g, item.dep.child)
    ensures var next := PlaceItem(g, st, item, k).value;
            var target := item.bases[k] + [item.dep.name];
            IsPending(next, target, dep) || Resolves(g, next.placements, target, dep)
  {
    var next := PlaceItem(g, st, item, k).value;
    var target := item.bases[k] + [item.dep.name];
    var bases := item.bases[..k + 1] + [target];
    var seen := Seen(item.dep.child, View(next.placements, bases, g.names));
    var deps := ChildrenOf(g, item.dep.child);
    var j :| 0 <= j < |deps| && deps[j] == dep;
    if seen !in item.lineage {
      assert next.pending[|st.pending| + j] == Item(dep, bases, item.lineage + {seen});
    } else {
      LookupIsResolve(g, next.placements, target, dep);
    }
  }

  lemma TurnKeepsSettled(g: Graph, st: State, name: Name)
    requires GraphOk(g) && Inv(g, st) && st.pending != []
    requires st.pending[0].dep.child in g.storage && st.pending[0].bases != [] && Turn(g, st).Ok?
    requires Settled(g, st, name) && !ShadowsLate(g, st, name)
    ensures Settled(g, Turn(g, st).value, name)
  {
    var next := Turn(g, st).value;
    TurnWritesOnce(g, st);
    forall from, dep | EdgeAt(g, next, from, dep) && dep.name == name
      ensures IsPending(next, from, dep) || Resolves(g, next.placements, from, dep)
    {
      if from == ParentPath(st.pending[0]) && dep == st.pending[0].dep {
        TurnResolves(g, st);
      } else if from !in st.placements {
        FreshEdges(g, st, dep);
      } else if IsPending(st, from, dep) {
        StillPending(g, st, from, dep);
      } else {
        assert EdgeAt(g, st, from, dep);
        TurnKeepsEdgeIff(g, st, from, dep);
      }
    }
  }

  /** Conditional final theorem: a name never shadowed late resolves everywhere at the end. */
  lemma {:induction false} RunResolves(g: Graph, st: State, name: Name)
    requires GraphOk(g) && Inv(g, st)
    requires Settled(g, st, name) && NeverShadowedLate(g, st, name)
    ensures Run(g, st).Ok? ==>
              forall from, dep :: EdgeAt(g, Run(g, st).value, from, dep) && dep.name == name
                                  ==> Resolves(g, Run(g, st).value.placements, from, dep)
    decreases Measure(g, st.pending)
  {
    if st.pending == [] {
      assert forall from, dep :: !IsPending(st, from, dep);
    } else {
      TurnKeeps(g, st);
      if Turn(g, st).Ok? {
        TurnKeepsSettled(g, st, name);
        RunResolves(g, Turn(g, st).value, name);
      }
    }
  }

  /** A turn that shadows a finished edge leaves it wrong and out of the worklist. */
  lemma ShadowUnsettles(g: Graph, st: State, name: Name)
    requires GraphOk(g) && Inv(g, st) && st.pending != []
    requires st.pending[0].dep.child in g.storage && st.pending[0].bases != [] && Turn(g, st).Ok?
    requires Settled(g, st, name) && ShadowsLate(g, st, name)
    ensures !Settled(g, Turn(g, st).value, name)
  {
    var next, target := Turn(g, st).value, Filled(g, st).value;
    var from, dep :| EdgeAt(g, st, from, dep) && dep.name == name && !IsPending(st, from, dep)
                     && Overtakes(g, st.placements, target, from, name);
    TurnWritesOnce(g, st);
    TurnKeepsEdgeIff(g, st, from, dep);
    NotPendingAgain(g, st, from, dep);
    assert EdgeAt(g, next, from, dep);
  }

  /** A finished edge is never enqueued again. */
  lemma NotPendingAgain(g: Graph, st: State, from: Path, dep: Dependency)
    requires GraphOk(g) && Inv(g, st) && st.pending != []
    requires st.pending[0].dep.child in g.storage && st.pending[0].bases != [] && Turn(g, st).Ok?
    requires from in st.placements && !IsPending(st, from, dep)
    ensures !IsPending(Turn(g, st).value, from, dep)
  {
    var next := Turn(g, st).value;
    TurnWritesOnce(g, st);
    forall i | 0 <= i < |next.pending| && next.pending[i].bases != []
      ensures ParentPath(next.pending[i]) != from || next.pending[i].dep != dep {
      if i < |st.pending| - 1 {
        assert next.pending[i] == st.pending[i + 1];
      } else {
        assert ParentPath(next.pending[i]) == Filled(g, st).value;
      }
    }
  }

  /**
   Exact over whole runs: a run keeps every finished edge named `name` right, at every
   moment, if and only if none of its turns shadows a finished edge of that name.
   */
  lemma {:induction false} ShadowFreeIff(g: Graph, st: State, name: Name)
    requires GraphOk(g) && Inv(g, st) && Settled(g, st, name)
    ensures NeverShadowedLate(g, st, name) <==> SettledThroughout(g, st, name)
    decreases Measure(g, st.pending)
  {
    if st.pending != [] {
      TurnKeeps(g, st);
      if Turn(g, st).Ok? {
        if ShadowsLate(g, st, name) {
          ShadowUnsettles(g, st, name);
        } else {
          TurnKeepsSettled(g, st, name);
          ShadowFreeIff(g, Turn(g, st).value, name);
        }
      }
    }
  }

  /** What a lookup answers: the instance placed where it ends. */
  ghost function Answer(g: Graph, placements: map<Path, InstanceKey>, from: Path, name: Name): Option<InstanceKey> {
    var found := Resolve(g, placements, from, name);
    if found.Some? && !Reserved(g, found.value) && found.value in placements then Some(placements[found.value])
    else None
  }

  lemma TurnAnswers(g: Graph, st: State, from: Path, name: Name)
    requires GraphOk(g) && Inv(g, st) && st.pending != []
    requires st.pending[0].dep.child in g.storage && st.pending[0].bases != [] && Turn(g, st).Ok?
    ensures Answer(g, Turn(g, st).value.placements, from, name)
            == if Filled(g, st).Some? && Overtakes(g, st.placements, Filled(g, st).value, from, name)
               then Some(st.pending[0].dep.child) else Answer(g, st.placements, from, name)
  {
    TurnWritesOnce(g, st);
    ResolveOnPath(g, st.placements, from, name);
    if Filled(g, st).Some? {
      PlacementFrame(g, st.placements, Filled(g, st).value, st.pending[0].dep.child, from, name);
    }
  }

  // ----- What each edge finds in the end -----

  /** The edge's placement is made and its turn has passed. */
  ghost predicate Finished(g: Graph, st: State, from: Path, dep: Dependency) {
    EdgeAt(g, st, from, dep) && !IsPending(st, from, dep)
  }

  /** The last package that a turn of the run from `st` puts in front of the edge once it is finished. */
  ghost function LastShadow(g: Graph, st: State, from: Path, dep: Dependency): Option<InstanceKey>
    requires GraphOk(g) && Inv(g, st)
    decreases Measure(g, st.pending)
  {
    if st.pending == [] then None
    else
      TurnKeeps(g, st);
      if Turn(g, st).Err? then None
      else
        var later := LastShadow(g, Turn(g, st).value, from, dep);
        if later.Some? then later
        else if Finished(g, st, from, dep) && Filled(g, st).Some?
          && Overtakes(g, st.placements, Filled(g, st).value, from, dep.name)
        then Some(st.pending[0].dep.child)
        else None
  }

  lemma FinishedStays(g: Graph, st: State, from: Path, dep: Dependency)
    requires GraphOk(g) && Inv(g, st) && st.pending != []
    requires st.pending[0].dep.child in g.storage && st.pending[0].bases != [] && Turn(g, st).Ok?
    requires Finished(g, st, from, dep)
    ensures Finished(g, Turn(g, st).value, from, dep)
  {
    TurnWritesOnce(g, st);
    NotPendingAgain(g, st, from, dep);
  }

  /** The turn that finishes an edge leaves it right. */
  lemma FinishingResolves(g: Graph, st: State, from: Path, dep: Dependency)
    requires GraphOk(g) && Inv(g, st) && st.pending != []
    requires st.pending[0].dep.child in g.storage && st.pending[0].bases != [] && Turn(g, st).Ok?
    requires !Finished(g, st, from, dep) && Finished(g, Turn(g, st).value, from, dep)
    ensures Answer(g, Turn(g, st).value.placements, from, dep.name) == Some(dep.child)
  {
    TurnWritesOnce(g, st);
    if from == ParentPath(st.pending[0]) && dep == st.pending[0].dep {
      TurnResolves(g, st);
    } else if from !in st.placements {
      FreshEdges(g, st, dep);
    } else {
      assert EdgeAt(g, st, from, dep);
      StillPending(g, st, from, dep);
    }
  }

  lemma {:induction false} FinalAnswer(g: Graph, st: State, from: Path, dep: Dependency)
    requires GraphOk(g) && Inv(g, st) && Run(g, st).Ok? && EdgeAt(g, Run(g, st).value, from, dep)
    ensures Answer(g, Run(g, st).value.placements, from, dep.name)
            == if LastShadow(g, st, from, dep).Some? then LastShadow(g, st, from, dep)
               else if Finished(g, st, from, dep) then Answer(g, st.placements, from, dep.name)
               else Some(dep.child)
    decreases Measure(g, st.pending)
  {
    if st.pending != [] {
      TurnKeeps(g, st);
      FinalAnswer(g, Turn(g, st).value, from, dep);
      if Finished(g, st, from, dep) {
        FinishedStays(g, st, from, dep);
        TurnAnswers(g, st, from, dep.name);
      } else if Finished(g, Turn(g, st).value, from, dep) {
        FinishingResolves(g, st, from, dep);
      }
    }
  }

  /**
   Exact over whole runs: an edge that is unfinished or right at the start is right at the
   end if and only if no turn after its own shadows it, or the last one to do so places its
   child.
   */
  lemma RunResolvesIff(g: Graph, st: State, from: Path, dep: Dependency)
    requires GraphOk(g) && Inv(g, st) && Run(g, st).Ok? && EdgeAt(g, Run(g, st).value, from, dep)
    requires Finished(g, st, from, dep) ==> Resolves(g, st.placements, from, dep)
    ensures Resolves(g, Run(g, st).value.placements, from, dep)
            <==> LastShadow(g, st, from, dep) in {None, Some(dep.child)}
  {
    FinalAnswer(g, st, from, dep);
  }

  // ----- Names bound to one identity -----

  /** Every edge named `name` has child `key`. */
  ghost predicate OneIdentity(g: Graph, name: Name, key: InstanceKey) {
    forall p, d :: p in g.children && d in g.children[p] && d.name == name ==> d.child == key
  }

  /** A shadow takes two identities: the one that is hidden and the one that hides it. */
  lemma OneIdentityNoShadow(g: Graph, st: State, name: Name, key: InstanceKey)
    requires GraphOk(g) && Inv(g, st) && st.pending != [] && st.pending[0].bases != []
    requires OneIdentity(g, name, key) && Settled(g, st, name)
    ensures !ShadowsLate(g, st, name)
  {
    if ShadowsLate(g, st, name) {
      var item, target := st.pending[0], Filled(g, st).value;
      var from, dep :| EdgeAt(g, st, from, dep) && dep.name == name && !IsPending(st, from, dep)
                       && Overtakes(g, st.placements, target, from, name);
      assert ItemOk(g, st.placements, item);
      assert target[|target| - 1] == item.dep.name == name;
      OvertakenSeesAnother(g, st, from, dep);
    }
  }

  /**
   A name with one identity among the edges is never shadowed late, whatever the roots,
   the workspace links and the rest of the graph do.
   */
  lemma {:induction false} OneIdentityRun(g: Graph, st: State, name: Name, key: InstanceKey)
    requires GraphOk(g) && Inv(g, st)
    requires OneIdentity(g, name, key) && Settled(g, st, name)
    ensures NeverShadowedLate(g, st, name)
    decreases Measure(g, st.pending)
  {
    if st.pending != [] {
      TurnKeeps(g, st);
      OneIdentityNoShadow(g, st, name, key);
      if Turn(g, st).Ok? {
        TurnKeepsSettled(g, st, name);
        OneIdentityRun(g, Turn(g, st).value, name, key);
      }
    }
  }
}
