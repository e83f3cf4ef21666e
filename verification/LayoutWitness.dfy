/**
 Layouts that the planner returns although one import is wrong: the hypothesis of
 the final theorem is needed. The project depends on a, c@2 and d@1; a depends on
 c@1 and d@1; c@1 depends on d@2. Package a's d@1 is found at the root and left
 there, and then c@1's d@2 is hoisted into a's own node_modules.
 */
module LayoutWitness {
  import opened Wrappers
  import opened Ordering
  import opened LayoutModel
  import opened LayoutRun
  import opened LayoutResolution
  import opened LayoutPlanner
  import opened LayoutTheorems
  import opened LayoutOutline

  /** The three names and five identities of the example, in increasing order. */
  datatype Cast = Cast(na: Name, nc: Name, nd: Name,
                       a: InstanceKey, c1: InstanceKey, c2: InstanceKey, d1: InstanceKey, d2: InstanceKey)

  ghost predicate Increasing(w: Cast) {
    && w.a < w.c1 < w.c2 < w.d1 < w.d2
    && TextLe(w.na, w.nc) && TextLe(w.nc, w.nd)
    && w.na != w.nc && w.nc != w.nd && w.na != w.nd
  }

  function Instances(w: Cast): seq<Instance> {
    [Instance(w.a, "a", "a"), Instance(w.c1, "c1", "c1"), Instance(w.c2, "c2", "c2"),
     Instance(w.d1, "d1", "d1"), Instance(w.d2, "d2", "d2")]
  }

  function Roots(w: Cast): seq<Dependency> {
    [Dependency(w.na, w.a), Dependency(w.nc, w.c2), Dependency(w.nd, w.d1)]
  }

  function Edges(w: Cast): seq<Edge> {
    [Edge(w.a, Dependency(w.nc, w.c1)), Edge(w.a, Dependency(w.nd, w.d1)), Edge(w.c1, Dependency(w.nd, w.d2))]
  }

  function Example(w: Cast): Input { Input(Instances(w), Roots(w), Edges(w)) }

  function GraphFor(w: Cast): Graph {
    Graph(Symlink, Storage(Instances(w)),
          map[w.a := [Dependency(w.nc, w.c1), Dependency(w.nd, w.d1)], w.c1 := [Dependency(w.nd, w.d2)]],
          [w.nc, w.nd], {})
  }

  lemma Known(w: Cast, k: InstanceKey)
    requires Increasing(w) && k in {w.a, w.c1, w.c2, w.d1, w.d2}
    ensures k in GraphFor(w).storage
  {
    var s := Instances(w);
    StorageIs(s, k);
    assert s[0].key == w.a && s[1].key == w.c1 && s[2].key == w.c2 && s[3].key == w.d1 && s[4].key == w.d2;
  }

  lemma EdgesAreKnown(w: Cast)
    requires Increasing(w)
    ensures EdgesKnown(Edges(w), GraphFor(w).storage)
  {
    forall x | x in Edges(w) ensures x.parent in GraphFor(w).storage && x.dependency.child in GraphFor(w).storage {
      Known(w, x.parent);
      Known(w, x.dependency.child);
    }
  }

  lemma ChildrenFit(w: Cast)
    requires Increasing(w)
    ensures ChildrenMatch(Edges(w), GraphFor(w).children)
  {
    var e := Edges(w);
    assert e[0].parent == w.a && e[2].parent == w.c1;
  }

  lemma NamesFit(w: Cast)
    requires Increasing(w)
    ensures NamesMatch(Edges(w), GraphFor(w).names)
  {
    var e := Edges(w);
    assert e[0].dependency.name == w.nc && e[1].dependency.name == w.nd;
  }

  lemma ExampleIsDescribed(w: Cast)
    requires Increasing(w)
    ensures Describes(Example(w), GraphFor(w))
  {
    EdgesAreKnown(w);
    ChildrenFit(w);
    NamesFit(w);
  }

  // ----- The run, turn by turn -----

  function ItemC(w: Cast): Outline { Outline(Dependency(w.nc, w.c1), [[], [w.na]], {}) }
  function ItemD(w: Cast): Outline { Outline(Dependency(w.nd, w.d1), [[], [w.na]], {}) }
  function ItemDD(w: Cast): Outline { Outline(Dependency(w.nd, w.d2), [[], [w.na], [w.na, w.nc]], {w.c1}) }

  function AfterRoots(w: Cast): map<Path, InstanceKey> { map[[w.na] := w.a, [w.nc] := w.c2, [w.nd] := w.d1] }
  function AfterC(w: Cast): map<Path, InstanceKey> { AfterRoots(w)[[w.na, w.nc] := w.c1] }
  function AfterD(w: Cast): map<Path, InstanceKey> { AfterC(w)[[w.na, w.nd] := w.d2] }

  /** Paths that differ in a name differ. */
  lemma PathsDiffer(w: Cast)
    requires Increasing(w)
    ensures [w.na] != [w.nc] && [w.na] != [w.nd] && [w.nc] != [w.nd] && [w.na, w.nc] != [w.na, w.nd]
    ensures [] + [w.nc] == [w.nc] && [w.na] + [w.nc] == [w.na, w.nc]
    ensures [] + [w.nd] == [w.nd] && [w.na] + [w.nd] == [w.na, w.nd] && [w.na, w.nc] + [w.nd] == [w.na, w.nc, w.nd]
  {
    assert [w.na][0] == w.na && [w.nc][0] == w.nc && [w.nd][0] == w.nd;
    assert [w.na, w.nc][1] == w.nc && [w.na, w.nd][1] == w.nd;
  }

  lemma Seeding(w: Cast)
    requires Increasing(w)
    ensures Seed(GraphFor(w), Roots(w), EMPTY).Ok?
    ensures Stage(Seed(GraphFor(w), Roots(w), EMPTY).value, [ItemC(w), ItemD(w)], AfterRoots(w))
  {
    var g, r := GraphFor(w), Roots(w);
    PathsDiffer(w);
    Known(w, w.a);
    Known(w, w.c2);
    Known(w, w.d1);
    var s1 := SeedOne(g, r[0], EMPTY);
    var s2 := SeedOne(g, r[1], s1);
    SeedStep(g, r[0], [r[1], r[2]], EMPTY);
    SeedStep(g, r[1], [r[2]], s1);
    SeedStep(g, r[2], [], s2);
    assert r == [r[0]] + [r[1], r[2]] && [r[1], r[2]] == [r[1]] + [r[2]] && [r[2]] == [r[2]] + [];
    SeedOutline(g, r[0], EMPTY, [], map[]);
    SeedOutline(g, r[1], s1, [ItemC(w), ItemD(w)], map[[w.na] := w.a]);
    SeedOutline(g, r[2], s2, [ItemC(w), ItemD(w)], map[[w.na] := w.a, [w.nc] := w.c2]);
    assert [] + Fresh(ChildrenOf(g, w.a), [[], [w.na]], {}) == [ItemC(w), ItemD(w)];
  }

  /** c@1 is nested under a, because the root already holds c@2. */
  lemma FirstTurn(w: Cast, st: State)
    requires Increasing(w) && Stage(st, [ItemC(w)] + [ItemD(w)], AfterRoots(w)) && GraphOk(GraphFor(w))
             && Inv(GraphFor(w), st)
    ensures Turnable(GraphFor(w), st) && Stage(Turn(GraphFor(w), st).value, [ItemD(w)] + [ItemDD(w)], AfterC(w))
  {
    var g := GraphFor(w);
    PathsDiffer(w);
    Known(w, w.c1);
    assert NearestAt(g, AfterRoots(w), ItemC(w), 0);
    TurnNests(g, st, ItemC(w), [ItemD(w)], AfterRoots(w), 0);
    assert ItemC(w).bases[..2] + [[w.na, w.nc]] == [[], [w.na], [w.na, w.nc]];
    assert ChildrenOf(g, w.c1) == [Dependency(w.nd, w.d2)];
    assert ItemC(w).keys + {w.c1} == {w.c1};
    assert Fresh(ChildrenOf(g, w.c1), [[], [w.na], [w.na, w.nc]], {w.c1}) == [ItemDD(w)];
  }

  /** a's d@1 is already answered by the root. */
  lemma SecondTurn(w: Cast, st: State)
    requires Increasing(w) && Stage(st, [ItemD(w)] + [ItemDD(w)], AfterC(w)) && GraphOk(GraphFor(w))
             && Inv(GraphFor(w), st)
    ensures Turnable(GraphFor(w), st) && Stage(Turn(GraphFor(w), st).value, [ItemDD(w)] + [], AfterC(w))
  {
    PathsDiffer(w);
    Known(w, w.d1);
    assert [ItemDD(w)] + [] == [ItemDD(w)];
    TurnFinds(GraphFor(w), st, ItemD(w), [ItemDD(w)], AfterC(w), 0);
  }

  /** c@1's d@2 goes just inside the root's d@1, which is a's own node_modules. */
  lemma ThirdTurn(w: Cast, st: State)
    requires Increasing(w) && Stage(st, [ItemDD(w)] + [], AfterC(w)) && GraphOk(GraphFor(w)) && Inv(GraphFor(w), st)
    ensures Turnable(GraphFor(w), st) && Stage(Turn(GraphFor(w), st).value, [], AfterD(w))
  {
    var g := GraphFor(w);
    PathsDiffer(w);
    Known(w, w.d2);
    TurnNests(g, st, ItemDD(w), [], AfterC(w), 0);
    assert ChildrenOf(g, w.d2) == [];
  }

  lemma WholeRun(w: Cast, s0: State)
    requires Increasing(w) && GraphOk(GraphFor(w)) && Inv(GraphFor(w), s0)
    requires Stage(s0, [ItemC(w), ItemD(w)], AfterRoots(w))
    ensures Run(GraphFor(w), s0).Ok? && Run(GraphFor(w), s0).value.placements == AfterD(w)
  {
    var g := GraphFor(w);
    assert [ItemC(w)] + [ItemD(w)] == [ItemC(w), ItemD(w)];
    FirstTurn(w, s0);
    RunStep(g, s0);
    var s1 := Turn(g, s0).value;
    SecondTurn(w, s1);
    RunStep(g, s1);
    var s2 := Turn(g, s1).value;
    ThirdTurn(w, s2);
    RunStep(g, s2);
    assert |Outlines(Turn(g, s2).value.pending)| == 0;
  }

  lemma WrongImport(w: Cast)
    requires Increasing(w)
    ensures [w.na] in AfterD(w) && Edge(AfterD(w)[[w.na]], Dependency(w.nd, w.d1)) in Edges(w)
    ensures !Resolves(GraphFor(w), AfterD(w), [w.na], Dependency(w.nd, w.d1))
  {
    PathsDiffer(w);
    assert Edges(w)[1] == Edge(w.a, Dependency(w.nd, w.d1));
  }

  lemma ParentsPlaced(w: Cast)
    requires Increasing(w)
    ensures forall e :: e in Edges(w) ==> e.parent in AfterD(w).Values
  {
    PathsDiffer(w);
    assert AfterD(w)[[w.na]] == w.a && AfterD(w)[[w.na, w.nc]] == w.c1;
  }

  lemma ExamplePlan(w: Cast)
    requires Increasing(w)
    ensures Validate(Example(w), {}, Unix) == Ok(GraphFor(w))
    ensures PlanLayout(Example(w), {}, Unix).Ok? && PlanLayout(Example(w), {}, Unix).value.placements == AfterD(w)
  {
    ExampleIsDescribed(w);
    DescribedIsValidated(Example(w), GraphFor(w));
    ExampleRun(w);
    ParentsPlaced(w);
    PlanOfRun(Example(w), GraphFor(w), AfterD(w));
  }

  lemma ExampleRun(w: Cast)
    requires Increasing(w) && GraphOk(GraphFor(w))
    ensures Start(GraphFor(w), Roots(w)).Ok? && Run(GraphFor(w), Start(GraphFor(w), Roots(w)).value).Ok?
    ensures Run(GraphFor(w), Start(GraphFor(w), Roots(w)).value).value.placements == AfterD(w)
  {
    RootsStay(Roots(w));
    Seeding(w);
    WholeRun(w, Start(GraphFor(w), Roots(w)).value);
  }

  /** For every such cast the planner returns a plan in which a imports d@2, not its locked d@1. */
  lemma ReturnedLayoutCanBeWrong(w: Cast)
    requires Increasing(w)
    ensures Validate(Example(w), {}, Unix) == Ok(GraphFor(w))
    ensures PlanLayout(Example(w), {}, Unix).Ok?
    ensures !FinallyResolves(GraphFor(w), Edges(w), PlanLayout(Example(w), {}, Unix).value, w.nd)
  {
    ExamplePlan(w);
    WrongImport(w);
    WrongAtTheEnd(GraphFor(w), Edges(w), PlanLayout(Example(w), {}, Unix).value, [w.na], Dependency(w.nd, w.d1));
  }

  lemma WrongAtTheEnd(g: Graph, edges: seq<Edge>, plan: LayoutPlan, from: Path, dep: Dependency)
    requires from in plan.placements && Edge(plan.placements[from], dep) in edges
    requires !Resolves(g, plan.placements, from, dep)
    ensures !FinallyResolves(g, edges, plan, dep.name)
  {
  }

  /** Such casts exist. */
  lemma ExampleExists()
    ensures Increasing(Cast("a", "c", "d", 0, 1, 2, 3, 4))
  {
    assert "a"[0] < "c"[0] < "d"[0];
  }
}
