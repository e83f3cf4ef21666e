/**
 A late shadow that is repaired: the returned layout is right for a name although one of
 its finished edges was shadowed on the way. The project depends on a, and binds b, c, d
 and n to one package z; a depends on its own b, on y as c, and on its own d; b depends on
 its own c and on z as n; that c depends on z as n; that d depends on y as n. When d's n
 is nested in a, it hides z from b; when the inner c's n is nested in b, b sees z again.
 */
module LayoutRepair {
  import opened Wrappers
  import opened Ordering
  import opened LayoutModel
  import opened LayoutRun
  import opened LayoutResolution
  import opened LayoutPlanner
  import opened LayoutTheorems
  import opened LayoutOutline

  datatype Cast = Cast(na: Name, nb: Name, nc: Name, nd: Name, nn: Name,
                       a: InstanceKey, b: InstanceKey, c: InstanceKey, d: InstanceKey, y: InstanceKey, z: InstanceKey)

  ghost predicate Increasing(w: Cast) {
    && w.a < w.b < w.c < w.d < w.y < w.z
    && TextLe(w.na, w.nb) && TextLe(w.nb, w.nc) && TextLe(w.nc, w.nd) && TextLe(w.nd, w.nn)
    && w.na != w.nb && w.na != w.nc && w.na != w.nd && w.na != w.nn && w.nb != w.nc && w.nb != w.nd && w.nb != w.nn
    && w.nc != w.nd && w.nc != w.nn && w.nd != w.nn
  }

  function Instances(w: Cast): seq<Instance> {
    [Instance(w.a, "a", "a"), Instance(w.b, "b", "b"), Instance(w.c, "c", "c"),
     Instance(w.d, "d", "d"), Instance(w.y, "y", "y"), Instance(w.z, "z", "z")]
  }

  function Roots(w: Cast): seq<Dependency> {
    [Dependency(w.na, w.a), Dependency(w.nb, w.z), Dependency(w.nc, w.z), Dependency(w.nd, w.z), Dependency(w.nn, w.z)]
  }

  function Edges(w: Cast): seq<Edge> {
    [Edge(w.a, Dependency(w.nb, w.b)), Edge(w.a, Dependency(w.nc, w.y)), Edge(w.a, Dependency(w.nd, w.d)),
     Edge(w.b, Dependency(w.nc, w.c)), Edge(w.b, Dependency(w.nn, w.z)),
     Edge(w.c, Dependency(w.nn, w.z)), Edge(w.d, Dependency(w.nn, w.y))]
  }

  function Example(w: Cast): Input { Input(Instances(w), Roots(w), Edges(w)) }

  function Children(w: Cast): map<InstanceKey, seq<Dependency>> {
    map[w.a := [Dependency(w.nb, w.b), Dependency(w.nc, w.y), Dependency(w.nd, w.d)],
        w.b := [Dependency(w.nc, w.c), Dependency(w.nn, w.z)],
        w.c := [Dependency(w.nn, w.z)],
        w.d := [Dependency(w.nn, w.y)]]
  }

  function GraphFor(w: Cast): Graph {
    Graph(Symlink, Storage(Instances(w)), Children(w), [w.nb, w.nc, w.nd, w.nn], {})
  }

  lemma Known(w: Cast, k: InstanceKey)
    requires Increasing(w) && k in {w.a, w.b, w.c, w.d, w.y, w.z}
    ensures k in GraphFor(w).storage
  {
    var s := Instances(w);
    StorageIs(s, k);
    assert s[0].key == w.a && s[1].key == w.b && s[2].key == w.c && s[3].key == w.d && s[4].key == w.y
           && s[5].key == w.z;
  }

  lemma EdgesAreKnown(w: Cast)
    requires Increasing(w)
    ensures EdgesKnown(Edges(w), GraphFor(w).storage)
  {
    forall x | x in Edges(w) ensures x.parent in GraphFor(w).storage && x.dependency.child in GraphFor(w).storage {
      Known(w, x.parent);
      Known(w, x.dependency.child);
    }
  }

  lemma ParentsFit(w: Cast)
    requires Increasing(w)
    ensures forall k :: k in Children(w) <==> exists e :: e in Edges(w) && e.parent == k
  {
    var e := Edges(w);
    assert e[0].parent == w.a && e[3].parent == w.b && e[5].parent == w.c && e[6].parent == w.d;
  }

  lemma ChildFits(w: Cast, k: InstanceKey)
    requires Increasing(w) && k in Children(w)
    ensures forall d :: Edge(k, d) in Edges(w) <==> d in Children(w)[k]
  {
  }

  lemma ChildRises(w: Cast, k: InstanceKey)
    requires Increasing(w) && k in Children(w)
    ensures Rises(Children(w)[k])
  {
    var deps := Children(w)[k];
    if k == w.a {
      assert deps[0].name == w.nb && deps[1].name == w.nc && deps[2].name == w.nd && |deps| == 3;
    } else if k == w.b {
      assert deps[0].name == w.nc && deps[1].name == w.nn && |deps| == 2;
      TextLeTransitive(w.nc, w.nd, w.nn);
    }
  }

  lemma ChildrenFit(w: Cast)
    requires Increasing(w)
    ensures ChildrenMatch(Edges(w), Children(w))
  {
    ParentsFit(w);
    forall k | k in Children(w) ensures Rises(Children(w)[k]) { ChildRises(w, k); }
    forall k, d | k in Children(w) ensures Edge(k, d) in Edges(w) <==> d in Children(w)[k] { ChildFits(w, k); }
    AllFit(Edges(w), Children(w));
  }

  lemma AllFit(edges: seq<Edge>, children: map<InstanceKey, seq<Dependency>>)
    requires forall k :: k in children <==> exists e :: e in edges && e.parent == k
    requires forall k :: k in children ==> Rises(children[k])
    requires forall k, d :: k in children ==> (Edge(k, d) in edges <==> d in children[k])
    ensures ChildrenMatch(edges, children)
  {
  }

  lemma KeysFit(w: Cast)
    requires Increasing(w)
    ensures KeysIncrease(Instances(w))
  {
  }

  lemma NamesFit(w: Cast)
    requires Increasing(w)
    ensures NamesMatch(Edges(w), [w.nb, w.nc, w.nd, w.nn])
  {
    var e := Edges(w);
    assert e[0].dependency.name == w.nb && e[1].dependency.name == w.nc && e[2].dependency.name == w.nd
           && e[4].dependency.name == w.nn;
  }

  lemma ExampleIsDescribed(w: Cast)
    requires Increasing(w)
    ensures Describes(Example(w), GraphFor(w))
  {
    EdgesAreKnown(w);
    ChildrenFit(w);
    NamesFit(w);
    KeysFit(w);
    Described(Example(w), GraphFor(w));
  }

  lemma Described(input: Input, g: Graph)
    requires g.kind == Symlink && g.reserved == {} && g.storage == Storage(input.instances)
    requires KeysIncrease(input.instances) && EdgesKnown(input.edges, g.storage)
    requires ChildrenMatch(input.edges, g.children) && NamesMatch(input.edges, g.names)
    ensures Describes(input, g)
  {
  }

  // ----- Paths -----

  lemma PathsDiffer(w: Cast)
    requires Increasing(w)
    ensures [w.na] != [w.nb] && [w.na] != [w.nc] && [w.na] != [w.nd] && [w.na] != [w.nn]
    ensures [w.nb] != [w.nc] && [w.nb] != [w.nd] && [w.nb] != [w.nn] && [w.nc] != [w.nd] && [w.nc] != [w.nn]
            && [w.nd] != [w.nn]
    ensures [w.na, w.nb] != [w.na, w.nc] && [w.na, w.nb] != [w.na, w.nd] && [w.na, w.nb] != [w.na, w.nn]
    ensures [w.na, w.nc] != [w.na, w.nd] && [w.na, w.nc] != [w.na, w.nn] && [w.na, w.nd] != [w.na, w.nn]
    ensures [w.na, w.nb, w.nc] != [w.na, w.nb, w.nn] && [w.na, w.nb, w.nc] != [w.na, w.nd, w.nn]
            && [w.na, w.nb, w.nn] != [w.na, w.nd, w.nn]
  {
    assert [w.na][0] == w.na && [w.nb][0] == w.nb && [w.nc][0] == w.nc && [w.nd][0] == w.nd && [w.nn][0] == w.nn;
    assert [w.na, w.nb][1] == w.nb && [w.na, w.nc][1] == w.nc && [w.na, w.nd][1] == w.nd && [w.na, w.nn][1] == w.nn;
    assert [w.na, w.nb, w.nc][1..] == [w.nb, w.nc] && [w.na, w.nb, w.nn][1..] == [w.nb, w.nn]
           && [w.na, w.nd, w.nn][1..] == [w.nd, w.nn];
    assert [w.nb, w.nc][1] == w.nc && [w.nb, w.nn][1] == w.nn && [w.nd, w.nn][0] == w.nd;
  }

  lemma Joined(a: Name, b: Name, c: Name, n: Name)
    ensures [] + [n] == [n] && [a] + [n] == [a, n] && [a, b] + [n] == [a, b, n] && [a, b, c] + [n] == [a, b, c, n]
  {
  }

  // ----- The run, turn by turn -----

  function AfterRoots(w: Cast): map<Path, InstanceKey> {
    map[[w.na] := w.a, [w.nb] := w.z, [w.nc] := w.z, [w.nd] := w.z, [w.nn] := w.z]
  }
  function After1(w: Cast): map<Path, InstanceKey> { AfterRoots(w)[[w.na, w.nb] := w.b] }
  function After2(w: Cast): map<Path, InstanceKey> { After1(w)[[w.na, w.nc] := w.y] }
  function After3(w: Cast): map<Path, InstanceKey> { After2(w)[[w.na, w.nd] := w.d] }
  function After4(w: Cast): map<Path, InstanceKey> { After3(w)[[w.na, w.nb, w.nc] := w.c] }
  function After6(w: Cast): map<Path, InstanceKey> { After4(w)[[w.na, w.nn] := w.y] }
  function After7(w: Cast): map<Path, InstanceKey> { After6(w)[[w.na, w.nb, w.nn] := w.z] }

  function AB(w: Cast): Outline { Outline(Dependency(w.nb, w.b), [[], [w.na]], {}) }
  function AC(w: Cast): Outline { Outline(Dependency(w.nc, w.y), [[], [w.na]], {}) }
  function AD(w: Cast): Outline { Outline(Dependency(w.nd, w.d), [[], [w.na]], {}) }
  function BC(w: Cast): Outline { Outline(Dependency(w.nc, w.c), [[], [w.na], [w.na, w.nb]], {w.b}) }
  function BN(w: Cast): Outline { Outline(Dependency(w.nn, w.z), [[], [w.na], [w.na, w.nb]], {w.b}) }
  function DN(w: Cast): Outline { Outline(Dependency(w.nn, w.y), [[], [w.na], [w.na, w.nd]], {w.d}) }
  function CN(w: Cast): Outline {
    Outline(Dependency(w.nn, w.z), [[], [w.na], [w.na, w.nb], [w.na, w.nb, w.nc]], {w.b, w.c})
  }

  lemma Turn1(w: Cast, st: State)
    requires Increasing(w) && Stage(st, [AB(w)] + [AC(w), AD(w)], AfterRoots(w))
    ensures Turnable(GraphFor(w), st) && Stage(Turn(GraphFor(w), st).value, [AC(w)] + [AD(w), BC(w), BN(w)], After1(w))
  {
    var g := GraphFor(w);
    PathsDiffer(w);
    Joined(w.na, w.nb, w.nc, w.nb);
    Known(w, w.b);
    assert NearestAt(g, AfterRoots(w), AB(w), 0);
    TurnNests(g, st, AB(w), [AC(w), AD(w)], AfterRoots(w), 0);
    assert AB(w).bases[..2] + [[w.na, w.nb]] == [[], [w.na], [w.na, w.nb]];
    assert AB(w).keys + {w.b} == {w.b};
    assert ChildrenOf(g, w.b) == [Dependency(w.nc, w.c), Dependency(w.nn, w.z)];
    assert Fresh(ChildrenOf(g, w.b), [[], [w.na], [w.na, w.nb]], {w.b}) == [BC(w), BN(w)];
    assert [AC(w), AD(w)] + [BC(w), BN(w)] == [AC(w)] + [AD(w), BC(w), BN(w)];
  }

  lemma Turn2(w: Cast, st: State)
    requires Increasing(w) && Stage(st, [AC(w)] + [AD(w), BC(w), BN(w)], After1(w))
    ensures Turnable(GraphFor(w), st) && Stage(Turn(GraphFor(w), st).value, [AD(w)] + [BC(w), BN(w)], After2(w))
  {
    var g := GraphFor(w);
    PathsDiffer(w);
    Joined(w.na, w.nb, w.nc, w.nc);
    Known(w, w.y);
    assert NearestAt(g, After1(w), AC(w), 0);
    TurnNests(g, st, AC(w), [AD(w), BC(w), BN(w)], After1(w), 0);
    assert ChildrenOf(g, w.y) == [];
    assert [AD(w), BC(w), BN(w)] + [] == [AD(w)] + [BC(w), BN(w)];
  }

  lemma Turn3(w: Cast, st: State)
    requires Increasing(w) && Stage(st, [AD(w)] + [BC(w), BN(w)], After2(w))
    ensures Turnable(GraphFor(w), st) && Stage(Turn(GraphFor(w), st).value, [BC(w)] + [BN(w), DN(w)], After3(w))
  {
    var g := GraphFor(w);
    PathsDiffer(w);
    Joined(w.na, w.nb, w.nc, w.nd);
    Known(w, w.d);
    assert NearestAt(g, After2(w), AD(w), 0);
    TurnNests(g, st, AD(w), [BC(w), BN(w)], After2(w), 0);
    assert AD(w).bases[..2] + [[w.na, w.nd]] == [[], [w.na], [w.na, w.nd]];
    assert AD(w).keys + {w.d} == {w.d};
    assert ChildrenOf(g, w.d) == [Dependency(w.nn, w.y)];
    assert Fresh(ChildrenOf(g, w.d), [[], [w.na], [w.na, w.nd]], {w.d}) == [DN(w)];
    assert [BC(w), BN(w)] + [DN(w)] == [BC(w)] + [BN(w), DN(w)];
  }

  lemma NearestForB(w: Cast)
    requires Increasing(w)
    ensures NearestAt(GraphFor(w), After3(w), BC(w), 1) && After3(w)[[w.na] + [w.nc]] == w.y
  {
    PathsDiffer(w);
    Joined(w.na, w.nb, w.nc, w.nc);
  }

  lemma Turn4(w: Cast, st: State)
    requires Increasing(w) && Stage(st, [BC(w)] + [BN(w), DN(w)], After3(w))
    ensures Turnable(GraphFor(w), st) && Stage(Turn(GraphFor(w), st).value, [BN(w)] + [DN(w), CN(w)], After4(w))
  {
    var g := GraphFor(w);
    NearestForB(w);
    Joined(w.na, w.nb, w.nc, w.nc);
    Known(w, w.c);
    TurnNests(g, st, BC(w), [BN(w), DN(w)], After3(w), 1);
    assert BC(w).bases[..3] + [[w.na, w.nb, w.nc]] == [[], [w.na], [w.na, w.nb], [w.na, w.nb, w.nc]];
    assert BC(w).keys + {w.c} == {w.b, w.c};
    assert ChildrenOf(g, w.c) == [Dependency(w.nn, w.z)];
    assert Fresh(ChildrenOf(g, w.c), [[], [w.na], [w.na, w.nb], [w.na, w.nb, w.nc]], {w.b, w.c}) == [CN(w)];
    assert [BN(w), DN(w)] + [CN(w)] == [BN(w)] + [DN(w), CN(w)];
  }

  /** b's import of n is answered by the root. */
  lemma Turn5(w: Cast, st: State)
    requires Increasing(w) && Stage(st, [BN(w)] + [DN(w), CN(w)], After4(w))
    ensures Turnable(GraphFor(w), st) && Stage(Turn(GraphFor(w), st).value, [DN(w)] + [CN(w)], After4(w))
  {
    PathsDiffer(w);
    Joined(w.na, w.nb, w.nc, w.nn);
    Known(w, w.z);
    assert NearestAt(GraphFor(w), After4(w), BN(w), 0);
    TurnFinds(GraphFor(w), st, BN(w), [DN(w), CN(w)], After4(w), 0);
    assert [DN(w), CN(w)] == [DN(w)] + [CN(w)];
  }

  lemma NearestForD(w: Cast)
    requires Increasing(w)
    ensures NearestAt(GraphFor(w), After4(w), DN(w), 0) && After4(w)[[] + [w.nn]] == w.z
  {
    PathsDiffer(w);
    Joined(w.na, w.nd, w.nc, w.nn);
  }

  lemma NearestForC(w: Cast)
    requires Increasing(w)
    ensures NearestAt(GraphFor(w), After6(w), CN(w), 1) && After6(w)[[w.na] + [w.nn]] == w.y
  {
    PathsDiffer(w);
    Joined(w.na, w.nb, w.nc, w.nn);
  }

  /** d's import of n is nested in a, in front of b's answer. */
  lemma Turn6(w: Cast, st: State)
    requires Increasing(w) && Stage(st, [DN(w)] + [CN(w)], After4(w))
    ensures Turnable(GraphFor(w), st) && Stage(Turn(GraphFor(w), st).value, [CN(w)] + [], After6(w))
    ensures Filled(GraphFor(w), st) == Some([w.na, w.nn])
  {
    var g := GraphFor(w);
    NearestForD(w);
    Joined(w.na, w.nd, w.nc, w.nn);
    Known(w, w.y);
    TurnNests(g, st, DN(w), [CN(w)], After4(w), 0);
    assert ChildrenOf(g, w.y) == [];
    assert DN(w).bases[1] + [w.nn] == [w.na, w.nn];
    assert [CN(w)] + [] == [CN(w)];
  }

  /** c's import of n is nested in b. */
  lemma Turn7(w: Cast, st: State)
    requires Increasing(w) && Stage(st, [CN(w)] + [], After6(w))
    ensures Turnable(GraphFor(w), st) && Stage(Turn(GraphFor(w), st).value, [], After7(w))
  {
    var g := GraphFor(w);
    NearestForC(w);
    Joined(w.na, w.nb, w.nc, w.nn);
    Known(w, w.z);
    TurnNests(g, st, CN(w), [], After6(w), 1);
    assert ChildrenOf(g, w.z) == [];
  }

  lemma Seeding(w: Cast)
    requires Increasing(w)
    ensures Seed(GraphFor(w), Roots(w), EMPTY).Ok?
    ensures Stage(Seed(GraphFor(w), Roots(w), EMPTY).value, [AB(w)] + [AC(w), AD(w)], AfterRoots(w))
  {
    var g, r := GraphFor(w), Roots(w);
    PathsDiffer(w);
    Known(w, w.a);
    Known(w, w.z);
    var s1 := SeedOne(g, r[0], EMPTY);
    SeedOutline(g, r[0], EMPTY, [], map[]);
    assert ChildrenOf(g, w.a) == [Dependency(w.nb, w.b), Dependency(w.nc, w.y), Dependency(w.nd, w.d)];
    assert [] + Fresh(ChildrenOf(g, w.a), [[], [w.na]], {}) == [AB(w)] + [AC(w), AD(w)];
    SeedStep(g, r[0], [r[1], r[2], r[3], r[4]], EMPTY);
    assert r == [r[0]] + [r[1], r[2], r[3], r[4]];
    SeedLeaves(w, s1);
  }

  /** The roots bound to z have no children to enqueue. */
  lemma SeedLeaf(w: Cast, n: Name, rest: seq<Dependency>, st: State, outline: seq<Outline>, pl: map<Path, InstanceKey>)
    requires Increasing(w) && Stage(st, outline, pl) && [n] !in pl
    ensures w.z in GraphFor(w).storage
    ensures var next := SeedOne(GraphFor(w), Dependency(n, w.z), st);
            && Seed(GraphFor(w), [Dependency(n, w.z)] + rest, st) == Seed(GraphFor(w), rest, next)
            && Stage(next, outline, pl[[n] := w.z])
  {
    Known(w, w.z);
    SeedStep(GraphFor(w), Dependency(n, w.z), rest, st);
    SeedOutline(GraphFor(w), Dependency(n, w.z), st, outline, pl);
    assert ChildrenOf(GraphFor(w), w.z) == [];
    assert outline + [] == outline;
  }

  lemma SeedLeaves(w: Cast, st: State)
    requires Increasing(w) && Stage(st, [AB(w)] + [AC(w), AD(w)], map[[w.na] := w.a])
    ensures var r := Roots(w);
            var seeded := Seed(GraphFor(w), [r[1], r[2], r[3], r[4]], st);
            seeded.Ok? && Stage(seeded.value, [AB(w)] + [AC(w), AD(w)], AfterRoots(w))
  {
    var g, r := GraphFor(w), Roots(w);
    var o := [AB(w)] + [AC(w), AD(w)];
    PathsDiffer(w);
    Known(w, w.z);
    SeedLeaf(w, w.nb, [r[2], r[3], r[4]], st, o, map[[w.na] := w.a]);
    var s2 := SeedOne(g, r[1], st);
    SeedLeaf(w, w.nc, [r[3], r[4]], s2, o, map[[w.na] := w.a, [w.nb] := w.z]);
    var s3 := SeedOne(g, r[2], s2);
    LastLeaves(w, s3);
    assert [r[1], r[2], r[3], r[4]] == [r[1]] + [r[2], r[3], r[4]] && [r[2], r[3], r[4]] == [r[2]] + [r[3], r[4]];
  }

  lemma LastLeaves(w: Cast, s3: State)
    requires Increasing(w) && Stage(s3, [AB(w)] + [AC(w), AD(w)], map[[w.na] := w.a, [w.nb] := w.z, [w.nc] := w.z])
    ensures var r := Roots(w);
            var seeded := Seed(GraphFor(w), [r[3], r[4]], s3);
            seeded.Ok? && Stage(seeded.value, [AB(w)] + [AC(w), AD(w)], AfterRoots(w))
  {
    var g, r := GraphFor(w), Roots(w);
    var o := [AB(w)] + [AC(w), AD(w)];
    PathsDiffer(w);
    Known(w, w.z);
    SeedLeaf(w, w.nd, [r[4]], s3, o, map[[w.na] := w.a, [w.nb] := w.z, [w.nc] := w.z]);
    var s4 := SeedOne(g, r[3], s3);
    SeedLeaf(w, w.nn, [], s4, o, map[[w.na] := w.a, [w.nb] := w.z, [w.nc] := w.z, [w.nd] := w.z]);
    assert [r[3], r[4]] == [r[3]] + [r[4]] && [r[4]] == [r[4]] + [];
  }

  // ----- The shadow and its repair -----

  /** When d's import is nested, b's import is finished and overtaken. */
  lemma ShadowedAtSix(w: Cast, st: State)
    requires Increasing(w) && GraphOk(GraphFor(w)) && Inv(GraphFor(w), st) && Stage(st, [DN(w)] + [CN(w)], After4(w))
    ensures Turnable(GraphFor(w), st) && ShadowsLate(GraphFor(w), st, w.nn)
  {
    var g, from, dep := GraphFor(w), [w.na, w.nb], Dependency(w.nn, w.z);
    Turn6(w, st);
    BImport(w);
    assert EdgeAt(g, st, from, dep);
    NoneFromB(w, st);
    assert Overtakes(g, st.placements, [w.na, w.nn], from, w.nn);
  }

  lemma BImport(w: Cast)
    requires Increasing(w)
    ensures [w.na, w.nb] in After4(w) && After4(w)[[w.na, w.nb]] == w.b
    ensures Dependency(w.nn, w.z) in ChildrenOf(GraphFor(w), w.b)
    ensures Overtakes(GraphFor(w), After4(w), [w.na, w.nn], [w.na, w.nb], w.nn)
  {
    var g, from := GraphFor(w), [w.na, w.nb];
    PathsDiffer(w);
    Joined(w.na, w.nb, w.nc, w.nn);
    assert ChildrenOf(g, w.b)[1] == Dependency(w.nn, w.z);
    assert from[..1] == [w.na] && [w.na][..0] == [];
    assert Resolve(g, After4(w), [], w.nn) == Some([w.nn]);
    assert Resolve(g, After4(w), [w.na], w.nn) == Some([w.nn]);
    assert Resolve(g, After4(w), from, w.nn) == Some([w.nn]);
  }

  lemma NoneFromB(w: Cast, st: State)
    requires Increasing(w) && Stage(st, [DN(w)] + [CN(w)], After4(w))
    ensures !IsPending(st, [w.na, w.nb], Dependency(w.nn, w.z))
  {
    PathsDiffer(w);
    var o := [DN(w)] + [CN(w)];
    assert |st.pending| == 2;
    forall i | 0 <= i < |st.pending| ensures st.pending[i].bases == o[i].bases {
      assert Outlines(st.pending)[i] == o[i];
    }
  }

  lemma Unshadowed(g: Graph, st: State, name: Name)
    requires GraphOk(g) && Inv(g, st) && Turnable(g, st) && NeverShadowedLate(g, st, name)
    ensures Inv(g, Turn(g, st).value) && NeverShadowedLate(g, Turn(g, st).value, name) && !ShadowsLate(g, st, name)
  {
    TurnKeeps(g, st);
  }

  /** The run from `s0`, and the shadow in it. */
  lemma WholeRun(w: Cast, s0: State)
    requires Increasing(w) && GraphOk(GraphFor(w)) && Inv(GraphFor(w), s0)
             && Stage(s0, [AB(w)] + [AC(w), AD(w)], AfterRoots(w))
    ensures Run(GraphFor(w), s0).Ok? && Run(GraphFor(w), s0).value.placements == After7(w)
    ensures !NeverShadowedLate(GraphFor(w), s0, w.nn)
  {
    var g := GraphFor(w);
    Turn1(w, s0);
    RunStep(g, s0);
    var s1 := Turn(g, s0).value;
    Turn2(w, s1);
    RunStep(g, s1);
    var s2 := Turn(g, s1).value;
    Turn3(w, s2);
    RunStep(g, s2);
    var s3 := Turn(g, s2).value;
    LaterRun(w, s3);
    if NeverShadowedLate(g, s0, w.nn) {
      Unshadowed(g, s0, w.nn);
      Unshadowed(g, s1, w.nn);
      Unshadowed(g, s2, w.nn);
    }
  }

  lemma LaterRun(w: Cast, s3: State)
    requires Increasing(w) && GraphOk(GraphFor(w)) && Inv(GraphFor(w), s3)
             && Stage(s3, [BC(w)] + [BN(w), DN(w)], After3(w))
    ensures Run(GraphFor(w), s3).Ok? && Run(GraphFor(w), s3).value.placements == After7(w)
    ensures !NeverShadowedLate(GraphFor(w), s3, w.nn)
  {
    var g := GraphFor(w);
    Turn4(w, s3);
    RunStep(g, s3);
    var s4 := Turn(g, s3).value;
    Turn5(w, s4);
    RunStep(g, s4);
    var s5 := Turn(g, s4).value;
    LastTurns(w, s5);
    if NeverShadowedLate(g, s3, w.nn) {
      Unshadowed(g, s3, w.nn);
      Unshadowed(g, s4, w.nn);
    }
  }

  lemma LastTurns(w: Cast, s5: State)
    requires Increasing(w) && GraphOk(GraphFor(w)) && Inv(GraphFor(w), s5) && Stage(s5, [DN(w)] + [CN(w)], After4(w))
    ensures Run(GraphFor(w), s5).Ok? && Run(GraphFor(w), s5).value.placements == After7(w)
    ensures !NeverShadowedLate(GraphFor(w), s5, w.nn)
  {
    var g := GraphFor(w);
    ShadowedAtSix(w, s5);
    if NeverShadowedLate(g, s5, w.nn) { Unshadowed(g, s5, w.nn); }
    Turn6(w, s5);
    RunStep(g, s5);
    var s6 := Turn(g, s5).value;
    Turn7(w, s6);
    RunStep(g, s6);
    assert |Outlines(Turn(g, s6).value.pending)| == 0;
  }

  /** In the end every import of n is right. */
  lemma EveryImportRight(w: Cast, from: Path, dep: Dependency)
    requires Increasing(w) && from in After7(w) && Edge(After7(w)[from], dep) in Edges(w) && dep.name == w.nn
    ensures Resolves(GraphFor(w), After7(w), from, dep)
  {
    var g := GraphFor(w);
    PathsDiffer(w);
    Joined(w.na, w.nb, w.nc, w.nn);
    Joined(w.na, w.nd, w.nc, w.nn);
    assert [w.na, w.nb, w.nc][..2] == [w.na, w.nb] && [w.na, w.nd][..1] == [w.na];
    ImportersOfN(w, from, dep);
    assert Resolve(g, After7(w), [w.na], w.nn) == Some([w.na, w.nn]);
    assert Resolve(g, After7(w), [w.na, w.nb], w.nn) == Some([w.na, w.nb, w.nn]);
  }

  lemma ImportersOfN(w: Cast, from: Path, dep: Dependency)
    requires Increasing(w) && from in After7(w) && Edge(After7(w)[from], dep) in Edges(w) && dep.name == w.nn
    ensures (from == [w.na, w.nb] && dep.child == w.z) || (from == [w.na, w.nb, w.nc] && dep.child == w.z)
            || (from == [w.na, w.nd] && dep.child == w.y)
  {
    var key := After7(w)[from];
    assert key == w.b || key == w.c || key == w.d;
    PathsDiffer(w);
  }

  lemma ParentsPlaced(w: Cast)
    requires Increasing(w)
    ensures forall e :: e in Edges(w) ==> e.parent in After7(w).Values
  {
    PathsDiffer(w);
    assert After7(w)[[w.na]] == w.a && After7(w)[[w.na, w.nb]] == w.b && After7(w)[[w.na, w.nd]] == w.d;
    assert After7(w)[[w.na, w.nb, w.nc]] == w.c;
  }

  lemma ExampleRun(w: Cast)
    requires Increasing(w) && GraphOk(GraphFor(w))
    ensures Start(GraphFor(w), Roots(w)).Ok? && Run(GraphFor(w), Start(GraphFor(w), Roots(w)).value).Ok?
    ensures Run(GraphFor(w), Start(GraphFor(w), Roots(w)).value).value.placements == After7(w)
    ensures !NeverShadowedLate(GraphFor(w), Start(GraphFor(w), Roots(w)).value, w.nn)
  {
    RootsRise(w);
    RootsStay(Roots(w));
    Seeding(w);
    WholeRun(w, Start(GraphFor(w), Roots(w)).value);
  }

  lemma RootsRise(w: Cast)
    requires Increasing(w)
    ensures Rises(Roots(w))
  {
  }

  /**
   A late shadow does not decide the final layout: here one happens, and the returned
   plan is right for the name all the same.
   */
  lemma ShadowCanBeRepaired(w: Cast)
    requires Increasing(w)
    ensures Validate(Example(w), {}, Unix) == Ok(GraphFor(w)) && GraphOk(GraphFor(w))
            && Start(GraphFor(w), Roots(w)).Ok?
    ensures PlanLayout(Example(w), {}, Unix).Ok?
    ensures !NeverShadowedLate(GraphFor(w), Start(GraphFor(w), Roots(w)).value, w.nn)
    ensures FinallyResolves(GraphFor(w), Edges(w), PlanLayout(Example(w), {}, Unix).value, w.nn)
  {
    ExampleIsDescribed(w);
    DescribedIsValidated(Example(w), GraphFor(w));
    ExampleRun(w);
    ParentsPlaced(w);
    PlanOfRun(Example(w), GraphFor(w), After7(w));
    RightAtTheEnd(w, PlanLayout(Example(w), {}, Unix).value);
  }

  lemma RightAtTheEnd(w: Cast, plan: LayoutPlan)
    requires Increasing(w) && plan.placements == After7(w)
    ensures FinallyResolves(GraphFor(w), Edges(w), plan, w.nn)
  {
    forall from, dep | from in plan.placements && Edge(plan.placements[from], dep) in Edges(w) && dep.name == w.nn
      ensures Resolves(GraphFor(w), plan.placements, from, dep) {
      EveryImportRight(w, from, dep);
    }
  }

  /** Such casts exist. */
  lemma ExampleExists()
    ensures Increasing(Cast("a", "b", "c", "d", "n", 0, 1, 2, 3, 4, 5))
  {
    assert "a"[0] < "b"[0] < "c"[0] < "d"[0] < "n"[0];
  }
}
