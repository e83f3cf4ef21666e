/**
 What the planner's tables say at every point of a run: activation steps mirror the
 placements, placements are written once, and `reachable` is the set of placed
 instances, which grows to the instances reachable from the roots.
 */
module LayoutBookkeeping {
  import opened Wrappers
  import opened LayoutModel
  import opened LayoutRun
  import opened LayoutResolution

  /** Activation steps and placements describe the same directories, each exactly once. */
  ghost predicate Mirrors(g: Graph, activation: seq<ActivationStep>, placements: map<Path, InstanceKey>) {
    && (forall i, j :: 0 <= i < j < |activation| ==> activation[i].target != activation[j].target)
    && (forall step :: step in activation ==> StepMatches(g, step, placements))
    && (forall p :: p in placements ==> exists step :: step in activation && step.target == p)
  }

  /** The step links the storage path of the instance placed at its target. */
  ghost predicate StepMatches(g: Graph, step: ActivationStep, placements: map<Path, InstanceKey>) {
    && step.target in placements
    && placements[step.target] in g.storage
    && step.source == g.storage[placements[step.target]]
    && step.kind == g.kind
  }

  ghost predicate Covered(g: Graph, st: State) {
    forall from, dep :: EdgeAt(g, st, from, dep) ==> IsPending(st, from, dep) || dep.child in st.reachable
  }

  ghost predicate Booked(g: Graph, st: State) {
    && st.reachable == st.placements.Values
    && Mirrors(g, st.activation, st.placements)
    && Covered(g, st)
  }

  /** `later` keeps every placement of `earlier`: none is moved, replaced or dropped. */
  ghost predicate Extends(earlier: map<Path, InstanceKey>, later: map<Path, InstanceKey>) {
    forall p :: p in earlier ==> p in later && later[p] == earlier[p]
  }

  lemma PlaceMirrors(g: Graph, st: State, target: Path, key: InstanceKey)
    requires key in g.storage && target !in st.placements
    requires Mirrors(g, st.activation, st.placements)
    ensures Mirrors(g, Place(g, st, target, key).activation, Place(g, st, target, key).placements)
  {
    var next := Place(g, st, target, key);
    var step := ActivationStep(g.kind, g.storage[key], target);
    assert forall a :: a in next.activation <==> a in st.activation || a == step;
    forall i | 0 <= i < |st.activation| ensures st.activation[i].target != target {
      assert StepMatches(g, st.activation[i], st.placements);
    }
    forall a | a in next.activation ensures StepMatches(g, a, next.placements) {
      if a != step { assert StepMatches(g, a, st.placements); }
    }
    forall p | p in next.placements ensures exists a :: a in next.activation && a.target == p {
      if p == target {
        assert step in next.activation;
      } else {
        var a :| a in st.activation && a.target == p;
        assert a in next.activation;
      }
    }
  }

  lemma ValuesOfPlace(placements: map<Path, InstanceKey>, target: Path, key: InstanceKey)
    requires target !in placements
    ensures placements[target := key].Values == placements.Values + {key}
  {
    var after := placements[target := key];
    forall k | k in placements.Values ensures k in after.Values {
      var p :| p in placements && placements[p] == k;
      assert after[p] == k;
    }
    assert after[target] == key;
  }

  lemma TurnKeepsTables(g: Graph, st: State)
    requires GraphOk(g) && Inv(g, st) && st.pending != [] && Booked(g, st)
    requires st.pending[0].dep.child in g.storage && st.pending[0].bases != [] && Turn(g, st).Ok?
    ensures var next := Turn(g, st).value;
            next.reachable == next.placements.Values && Mirrors(g, next.activation, next.placements)
            && Extends(st.placements, next.placements)
  {
    TurnWritesOnce(g, st);
    var child := st.pending[0].dep.child;
    if Filled(g, st).Some? {
      var popped := st.(pending := st.pending[1..]);
      PlaceMirrors(g, popped, Filled(g, st).value, child);
      ValuesOfPlace(st.placements, Filled(g, st).value, child);
      assert Turn(g, st).value.activation == Place(g, popped, Filled(g, st).value, child).activation;
    } else {
      assert AlreadyResolves(g, st.placements, st.pending[0]);
      assert child in st.placements.Values;
    }
  }

  lemma TurnKeepsCovered(g: Graph, st: State)
    requires GraphOk(g) && Inv(g, st) && st.pending != [] && Booked(g, st)
    requires st.pending[0].dep.child in g.storage && st.pending[0].bases != [] && Turn(g, st).Ok?
    ensures Covered(g, Turn(g, st).value)
  {
    var next := Turn(g, st).value;
    TurnWritesOnce(g, st);
    TurnKeepsTables(g, st);
    forall from, dep | EdgeAt(g, next, from, dep) ensures IsPending(next, from, dep) || dep.child in next.reachable {
      if from == ParentPath(st.pending[0]) && dep == st.pending[0].dep {
        assert dep.child in next.reachable;
      } else if from !in st.placements {
        FreshEdges(g, st, dep);
      } else {
        assert EdgeAt(g, st, from, dep);
        if IsPending(st, from, dep) {
          StillPending(g, st, from, dep);
        } else {
          assert dep.child in st.reachable;
        }
      }
    }
  }

  /** Write-once over the whole run: the tables stay consistent and nothing placed ever moves. */
  lemma {:induction false} RunKeepsTables(g: Graph, st: State)
    requires GraphOk(g) && Inv(g, st) && Booked(g, st)
    ensures Run(g, st).Ok? ==> Booked(g, Run(g, st).value) && Extends(st.placements, Run(g, st).value.placements)
    decreases Measure(g, st.pending)
  {
    if st.pending != [] {
      TurnKeeps(g, st);
      if Turn(g, st).Ok? {
        TurnKeepsTables(g, st);
        TurnKeepsCovered(g, st);
        RunKeepsTables(g, Turn(g, st).value);
      }
    }
  }

  // ----- Reachability -----

  ghost predicate ClosedUnderEdges(g: Graph, s: set<InstanceKey>) {
    forall k, dep :: k in s && dep in ChildrenOf(g, k) ==> dep.child in s
  }

  lemma TurnStaysWithin(g: Graph, st: State, s: set<InstanceKey>)
    requires GraphOk(g) && Inv(g, st) && st.pending != []
    requires st.pending[0].dep.child in g.storage && st.pending[0].bases != [] && Turn(g, st).Ok?
    requires st.placements.Values == st.reachable <= s && ClosedUnderEdges(g, s)
    ensures Turn(g, st).value.reachable <= s
  {
    var item := st.pending[0];
    assert ItemOk(g, st.placements, item);
    assert st.placements[ParentPath(item)] in s;
    assert item.dep.child in s;
  }

  /** The planner places nothing outside any edge-closed set that contains the roots. */
  lemma {:induction false} RunStaysWithin(g: Graph, st: State, s: set<InstanceKey>)
    requires GraphOk(g) && Inv(g, st) && Booked(g, st)
    requires st.reachable <= s && ClosedUnderEdges(g, s)
    ensures Run(g, st).Ok? ==> Run(g, st).value.reachable <= s
    decreases Measure(g, st.pending)
  {
    if st.pending != [] {
      TurnKeeps(g, st);
      if Turn(g, st).Ok? {
        TurnKeepsTables(g, st);
        TurnKeepsCovered(g, st);
        TurnStaysWithin(g, st, s);
        RunStaysWithin(g, Turn(g, st).value, s);
      }
    }
  }

  /** When the worklist is empty, the placed instances are closed under edges. */
  lemma FinishedIsClosed(g: Graph, st: State)
    requires Booked(g, st) && st.pending == []
    ensures ClosedUnderEdges(g, st.reachable)
  {
    forall k, dep | k in st.reachable && dep in ChildrenOf(g, k) ensures dep.child in st.reachable {
      var p :| p in st.placements && st.placements[p] == k;
      assert EdgeAt(g, st, p, dep);
    }
  }
}
