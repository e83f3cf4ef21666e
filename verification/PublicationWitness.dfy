/**
 A workspace whose plan does not end with `tapid`: one unpublished package depends on
 it, so the plan has to publish `tapid` first.
 */
module PublicationWitness {
  import opened Wrappers
  import opened Ordering
  import opened Publication
  import opened PublicationTheorems

  function Base(t: string): Manifest { Manifest(t, "1.0.0", [], None) }
  function User(t: string, name: string): Manifest { Manifest(name, "1.0.0", [Bare(t)], None) }

  /** `tapid` and one package that depends on it. */
  function Consumer(t: string, name: string): seq<Manifest> { [Base(t), User(t, name)] }

  function Packages(t: string, name: string): map<string, Manifest> { map[t := Base(t), name := User(t, name)] }

  function Expected(t: string, name: string): Workspace {
    Workspace(map[t := Node(false, true, []), name := Node(false, true, [t])])
  }

  lemma TwoByName(a: Manifest, b: Manifest)
    ensures ByName([a, b]) == map[a.name := a, b.name := b]
  {
    assert [a, b][..1] == [a] && [a][..0] == [];
    assert ByName([]) == map[];
    assert ByName([a]) == map[a.name := a];
  }

  lemma Needs(t: string, name: string, packages: map<string, Manifest>)
    ensures InternalDependencies(Base(t), packages) == []
    ensures InternalDependencies(User(t, name), packages) == [t]
  {
    assert [Bare(t)][1..] == [] && Prerequisites([Bare(t)], packages) == [t] + [];
    assert [t] + [] == [t] && [t][1..] == [];
  }

  lemma ConsumerGraph(t: string, name: string)
    requires name != t
    ensures GraphOf(Consumer(t, name), {}) == Expected(t, name)
  {
    TwoByName(Base(t), User(t, name));
    Needs(t, name, Packages(t, name));
    NodesAre(t, name);
  }

  lemma NodeIs(packages: map<string, Manifest>, n: string, deps: seq<string>)
    requires n in packages && packages[n].publish == None && InternalDependencies(packages[n], packages) == deps
    ensures n in WorkspaceOf(packages, {}).packages && WorkspaceOf(packages, {}).packages[n] == Node(false, true, deps)
  {
  }

  lemma NodesAre(t: string, name: string)
    requires name != t
    requires InternalDependencies(Base(t), Packages(t, name)) == []
    requires InternalDependencies(User(t, name), Packages(t, name)) == [t]
    ensures WorkspaceOf(Packages(t, name), {}) == Expected(t, name)
  {
    var packages := Packages(t, name);
    assert packages[t] == Base(t) && packages[name] == User(t, name);
    NodeIs(packages, t, []);
    NodeIs(packages, name, [t]);
    KeysStay(packages, {});
    SameNodes(WorkspaceOf(packages, {}).packages, Expected(t, name).packages);
  }

  lemma CycleHasDeps(ws: Workspace, c: seq<string>)
    requires IsCycle(ws, c)
    ensures Deps(ws, c[0]) != []
  {
    if |c| > 1 { assert c[1] in Deps(ws, c[0]); }
  }

  lemma NoCycle(t: string, name: string, c: seq<string>)
    requires name != t
    ensures !IsCycle(Expected(t, name), c)
  {
    if IsCycle(Expected(t, name), c) { CycleHasDeps(Expected(t, name), c); }
  }

  lemma ExpectedIsPlannable(t: string, name: string)
    requires name != t
    ensures var ws := Expected(t, name); Available(ws, t) && Complete(ws) && Acyclic(ws)
    ensures var ws := Expected(t, name); Outstanding(ws, t) && Outstanding(ws, name) && t in Deps(ws, name)
  {
    forall c ensures !IsCycle(Expected(t, name), c) { NoCycle(t, name, c); }
  }

  lemma ConsumerIsPlannable(t: string, name: string)
    requires name != t
    ensures var ws := GraphOf(Consumer(t, name), {}); Available(ws, t) && Complete(ws) && Acyclic(ws)
    ensures var ws := GraphOf(Consumer(t, name), {}); Outstanding(ws, t) && Outstanding(ws, name) && t in Deps(ws, name)
  {
    ConsumerGraph(t, name);
    ExpectedIsPlannable(t, name);
  }

  /** For every such workspace a plan is returned, and `tapid` is not last in it. */
  lemma TapidNotAlwaysLast(name: string)
    requires name != TAPID
    ensures Plan(Consumer(TAPID, name), {}).Ok?
    ensures var plan := Plan(Consumer(TAPID, name), {}).value; plan != [] && plan[|plan| - 1] != TAPID
  {
    ConsumerIsPlannable(TAPID, name);
    NotLast(Consumer(TAPID, name), name);
  }

  lemma NotLast(metadata: seq<Manifest>, name: string)
    requires var ws := GraphOf(metadata, {}); Available(ws, TAPID) && Complete(ws) && Acyclic(ws)
    requires var ws := GraphOf(metadata, {});
             Outstanding(ws, TAPID) && Outstanding(ws, name) && name != TAPID && TAPID in Deps(ws, name)
    ensures Plan(metadata, {}).Ok?
    ensures var plan := Plan(metadata, {}).value; plan != [] && plan[|plan| - 1] != TAPID
  {
    PlanExistsIff(metadata, {});
    TapidIsLastIff(metadata, {});
  }
}
