/**
 The whole worklist run: the invariant every turn keeps, the measure every turn
 decreases, and the run as a function of its starting state.
 */
module LayoutRun {
  import opened Wrappers
  import opened LayoutModel

  /** What input validation guarantees about the graph. */
  ghost predicate GraphOk(g: Graph) {
    && (forall p :: p in g.children ==> p in g.storage)
    && (forall p, d :: p in g.children && d in g.children[p] ==> d.child in g.storage && d.name in g.names)
  }

  /** The parent placement of a pending item is the last of its bases. */
  function ParentPath(item: Item): Path
    requires item.bases != []
  {
    item.bases[|item.bases| - 1]
  }

  // ----- The invariant -----

  ghost predicate PlacementOk(g: Graph, path: Path, key: InstanceKey) {
    path != [] && !Reserved(g, path) && key in g.storage
  }

  ghost predicate ItemOk(g: Graph, placements: map<Path, InstanceKey>, item: Item) {
    && item.bases != []
    && ParentPath(item) in placements
    && item.bases == Prefixes(ParentPath(item))
    && item.dep in ChildrenOf(g, placements[ParentPath(item)])
    && item.lineage <= States(g)
  }

  ghost predicate Inv(g: Graph, st: State) {
    && (forall p :: p in st.placements ==> PlacementOk(g, p, st.placements[p]))
    && (forall i :: 0 <= i < |st.pending| ==> ItemOk(g, st.placements, st.pending[i]))
  }

  // ----- The finite space of lineage states -----

  ghost function Views(answers: set<Option<InstanceKey>>, n: nat): (r: set<seq<Option<InstanceKey>>>) {
    if n == 0 then {[]}
    else set a, v | a in answers && v in Views(answers, n - 1) :: v + [a]
  }

  ghost function Answers(g: Graph): set<Option<InstanceKey>> {
    {None} + set k | k in g.storage :: Some(k)
  }

  ghost function States(g: Graph): set<Seen> {
    set k, v | k in g.storage.Keys && v in Views(Answers(g), |g.names|) :: Seen(k, v)
  }

  lemma {:induction false} ViewsComplete(answers: set<Option<InstanceKey>>, v: seq<Option<InstanceKey>>)
    requires forall i :: 0 <= i < |v| ==> v[i] in answers
    ensures v in Views(answers, |v|)
  {
    if v != [] {
      var front := v[..|v| - 1];
      ViewsComplete(answers, front);
      assert v == front + [v[|v| - 1]];
    }
  }

  lemma {:induction false} LookupAnswers(g: Graph, placements: map<Path, InstanceKey>, bases: seq<Path>, name: Name)
    requires forall p :: p in placements ==> placements[p] in g.storage
    ensures Lookup(placements, bases, name) in Answers(g)
  {
    if bases != [] { LookupAnswers(g, placements, bases[..|bases| - 1], name); }
  }

  lemma SeenInStates(g: Graph, placements: map<Path, InstanceKey>, bases: seq<Path>, key: InstanceKey)
    requires key in g.storage
    requires forall p :: p in placements ==> placements[p] in g.storage
    ensures Seen(key, View(placements, bases, g.names)) in States(g)
  {
    var v := View(placements, bases, g.names);
    forall i | 0 <= i < |v| ensures v[i] in Answers(g) {
      LookupAnswers(g, placements, bases, g.names[i]);
    }
    ViewsComplete(Answers(g), v);
  }

  // ----- The measure -----

  /** Most children that any instance enqueues. */
  ghost function MaxOut(g: Graph): (b: nat)
    ensures forall k :: k in g.children ==> |g.children[k]| <= b
  {
    MaxOutOver(g.children)
  }

  ghost function MaxOutOver(children: map<InstanceKey, seq<Dependency>>): (b: nat)
    ensures forall k :: k in children ==> |children[k]| <= b
    decreases |children|
  {
    if children == map[] then 0
    else
      var k :| k in children;
      var rest := MaxOutOver(children - {k});
      assert forall j :: j in children ==> j == k || j in children - {k};
      if |children[k]| > rest then |children[k]| else rest
  }

  /** Turns that an item can still cause when its lineage may grow `room` more times. */
  ghost function Weight(branching: nat, room: nat): (w: nat)
    ensures w > 0
  {
    if room == 0 then 1 else 1 + branching * Weight(branching, room - 1)
  }

  ghost function Room(g: Graph, lineage: set<Seen>): nat {
    if |lineage| <= |States(g)| then |States(g)| - |lineage| else 0
  }

  ghost function Measure(g: Graph, pending: seq<Item>): nat {
    if pending == [] then 0
    else Weight(MaxOut(g), Room(g, pending[0].lineage)) + Measure(g, pending[1..])
  }

  lemma {:induction false} MeasureAppend(g: Graph, a: seq<Item>, b: seq<Item>)
    ensures Measure(g, a + b) == Measure(g, a) + Measure(g, b)
  {
    if a == [] {
      assert a + b == b;
    } else {
      assert (a + b)[1..] == a[1..] + b;
      MeasureAppend(g, a[1..], b);
    }
  }

  lemma {:induction false} MeasureUniform(g: Graph, items: seq<Item>, w: nat)
    requires forall i :: 0 <= i < |items| ==> Weight(MaxOut(g), Room(g, items[i].lineage)) == w
    ensures Measure(g, items) == |items| * w
  {
    if items != [] { MeasureUniform(g, items[1..], w); }
  }

  lemma SubsetSize<T>(a: set<T>, b: set<T>)
    requires a <= b
    ensures |a| <= |b|
    ensures a != b ==> |a| < |b|
  {
    assert b == a + (b - a);
    assert |b| == |a| + |b - a|;
  }

  /** A lineage that grows leaves less room, so the children weigh less than their parent item. */
  lemma ChildrenWeighLess(g: Graph, deps: seq<Dependency>, bases: seq<Path>, lineage: set<Seen>, seen: Seen)
    requires lineage <= States(g) && seen in States(g) && seen !in lineage
    requires |deps| <= MaxOut(g)
    ensures Measure(g, Enqueued(deps, bases, lineage + {seen})) < Weight(MaxOut(g), Room(g, lineage))
  {
    var grown := lineage + {seen};
    SubsetSize(lineage, States(g));
    SubsetSize(grown, States(g));
    assert |grown| == |lineage| + 1;
    var w := Weight(MaxOut(g), Room(g, grown));
    assert Room(g, grown) == Room(g, lineage) - 1;
    MeasureUniform(g, Enqueued(deps, bases, grown), w);
    MulMonotone(|deps|, MaxOut(g), w);
  }

  lemma MulMonotone(a: nat, b: nat, c: nat)
    requires a <= b
    ensures a * c <= b * c
  {
  }

  // ----- Every turn keeps the invariant and decreases the measure -----

  lemma PrefixesExtend(path: Path, k: nat, name: Name)
    requires k <= |path|
    ensures Prefixes(path)[..k + 1] + [path[..k] + [name]] == Prefixes(path[..k] + [name])
  {
    var next := path[..k] + [name];
    var a := Prefixes(path)[..k + 1] + [next];
    forall i | 0 <= i < |a| ensures a[i] == Prefixes(next)[i] {
      if i <= k { assert path[..i] == next[..i]; } else { assert next[..i] == next; }
    }
  }

  /** Readiness of the front item for a turn. */
  lemma FrontReady(g: Graph, st: State)
    requires GraphOk(g) && Inv(g, st) && st.pending != []
    ensures st.pending[0].dep.child in g.storage && st.pending[0].bases != []
  {
    assert ItemOk(g, st.placements, st.pending[0]);
  }

  lemma FreeBase(g: Graph, placements: map<Path, InstanceKey>, item: Item)
    requires ChosenBase(g, placements, item) < |item.bases|
    ensures !Held(g, placements, item.bases[ChosenBase(g, placements, item)] + [item.dep.name])
  {
    FirstFreeIsFree(g, placements, item.bases, item.dep.name,
                    NearestIndex(g, placements, item.bases, item.dep.name) + 1);
  }

  lemma {:induction false} FirstFreeIsFree(g: Graph, placements: map<Path, InstanceKey>, bases: seq<Path>, name: Name,
                                           from: nat)
    requires from <= |bases|
    ensures var k := FirstFree(g, placements, bases, name, from);
            k < |bases| ==> !Held(g, placements, bases[k] + [name])
    decreases |bases| - from
  {
    if from < |bases| && Held(g, placements, bases[from] + [name]) {
      FirstFreeIsFree(g, placements, bases, name, from + 1);
    }
  }

  lemma PlaceItemKeeps(g: Graph, st: State, item: Item, k: nat)
    requires GraphOk(g) && Inv(g, st) && ItemOk(g, st.placements, item)
    requires item.dep.child in g.storage
    requires k < |item.bases| && !Held(g, st.placements, item.bases[k] + [item.dep.name])
    ensures var r := PlaceItem(g, st, item, k);
            r.Ok? ==> Inv(g, r.value)
                      && Measure(g, r.value.pending) < Measure(g, st.pending) + Weight(MaxOut(g), Room(g, item.lineage))
  {
    var target := item.bases[k] + [item.dep.name];
    var placed := Place(g, st, target, item.dep.child);
    var bases := item.bases[..k + 1] + [target];
    var seen := Seen(item.dep.child, View(placed.placements, bases, g.names));
    var deps := ChildrenOf(g, item.dep.child);
    PrefixesExtend(ParentPath(item), k, item.dep.name);
    assert bases == Prefixes(target);
    SeenInStates(g, placed.placements, bases, item.dep.child);
    var items := Enqueued(deps, bases, item.lineage + {seen});
    forall i | 0 <= i < |items| ensures ItemOk(g, placed.placements, items[i]) {
      assert items[i].bases[|bases| - 1] == target;
    }
    forall i | 0 <= i < |st.pending| ensures ItemOk(g, placed.placements, st.pending[i]) {
      assert ItemOk(g, st.placements, st.pending[i]);
    }
    if seen !in item.lineage {
      MeasureAppend(g, st.pending, items);
      ChildrenWeighLess(g, deps, bases, item.lineage, seen);
    }
  }

  lemma TurnKeeps(g: Graph, st: State)
    requires GraphOk(g) && Inv(g, st) && st.pending != []
    ensures st.pending[0].dep.child in g.storage && st.pending[0].bases != []
    ensures Turn(g, st).Ok? ==>
              Inv(g, Turn(g, st).value) && Measure(g, Turn(g, st).value.pending) < Measure(g, st.pending)
  {
    FrontReady(g, st);
    var item := st.pending[0];
    var popped := st.(pending := st.pending[1..]);
    assert ItemOk(g, st.placements, item);
    forall i | 0 <= i < |popped.pending| ensures ItemOk(g, st.placements, popped.pending[i]) {
      assert popped.pending[i] == st.pending[i + 1];
    }
    if !AlreadyResolves(g, st.placements, item) {
      var k := ChosenBase(g, st.placements, item);
      if k < |item.bases| {
        FreeBase(g, st.placements, item);
        PlaceItemKeeps(g, popped, item, k);
      }
    }
  }

  /** The run from `st` until the worklist is empty or a turn fails. */
  function Run(g: Graph, st: State): (r: Result<State, PlanError>)
    requires GraphOk(g) && Inv(g, st)
    ensures r.Ok? ==> Inv(g, r.value) && r.value.pending == []
    decreases Measure(g, st.pending)
  {
    if st.pending == [] then Ok(st)
    else
      TurnKeeps(g, st);
      var next := Turn(g, st);
      if next.Err? then next else Run(g, next.value)
  }
}
