/**
 The plan is deterministic: it does not depend on the order of the metadata or of any
 package's dependency list.
 */
module PublicationOrder {
  import opened Wrappers
  import opened Ordering
  import opened Publication
  import opened PublicationTheorems

  /** The same package, its dependencies listed in any order. */
  ghost predicate SamePackage(a: Manifest, b: Manifest) {
    a.name == b.name && a.version == b.version && a.publish == b.publish
    && multiset(a.dependencies) == multiset(b.dependencies)
  }

  ghost predicate SamePackages(a: map<string, Manifest>, b: map<string, Manifest>) {
    a.Keys == b.Keys && forall n :: n in a ==> SamePackage(a[n], b[n])
  }

  // ----- Prerequisites -----

  lemma SamePrerequisite(dep: Dependency, a: map<string, Manifest>, b: map<string, Manifest>)
    requires SamePackages(a, b)
    ensures Prerequisite(dep, a) == Prerequisite(dep, b)
  {
  }

  lemma {:induction false} PrerequisitesAppend(x: seq<Dependency>, y: seq<Dependency>, packages: map<string, Manifest>)
    ensures Prerequisites(x + y, packages) == Prerequisites(x, packages) + Prerequisites(y, packages)
    decreases |x|
  {
    if x == [] {
      assert x + y == y;
    } else {
      assert (x + y)[0] == x[0] && (x + y)[1..] == x[1..] + y;
      PrerequisitesAppend(x[1..], y, packages);
    }
  }

  lemma PrerequisitesAround(x: seq<Dependency>, d: Dependency, y: seq<Dependency>, packages: map<string, Manifest>)
    ensures multiset(Prerequisites(x + [d] + y, packages))
            == multiset(Prerequisite(d, packages)) + multiset(Prerequisites(x + y, packages))
  {
    PrerequisitesAppend(x + [d], y, packages);
    PrerequisitesAppend(x, [d], packages);
    PrerequisitesAppend(x, y, packages);
    OnePrerequisite(d, packages);
    Around(Prerequisites(x, packages), Prerequisite(d, packages), Prerequisites(y, packages));
  }

  lemma OnePrerequisite(d: Dependency, packages: map<string, Manifest>)
    ensures Prerequisites([d], packages) == Prerequisite(d, packages)
  {
    assert [d][1..] == [] && Prerequisites([], packages) == [];
  }

  lemma Around(p: seq<string>, m: seq<string>, q: seq<string>)
    ensures multiset(p + m + q) == multiset(m) + multiset(p + q)
  {
  }

  lemma {:induction false} SamePrerequisites(x: seq<Dependency>, y: seq<Dependency>, a: map<string, Manifest>,
                                             b: map<string, Manifest>)
    requires multiset(x) == multiset(y) && SamePackages(a, b)
    ensures multiset(Prerequisites(x, a)) == multiset(Prerequisites(y, b))
    decreases |x|
  {
    assert |multiset(x)| == |x| && |multiset(y)| == |y|;
    if x != [] {
      var u, v := SplitAround(x, y);
      SamePrerequisites(x[1..], u + v, a, b);
      SamePrerequisite(x[0], a, b);
      PrerequisitesAround(u, x[0], v, b);
    }
  }

  lemma SameInternal(p: Manifest, q: Manifest, a: map<string, Manifest>, b: map<string, Manifest>)
    requires SamePackage(p, q) && SamePackages(a, b)
    ensures InternalDependencies(p, a) == InternalDependencies(q, b)
  {
    SamePrerequisites(p.dependencies, q.dependencies, a, b);
    TextOrder();
    SortUnique(TextLe, Prerequisites(p.dependencies, a), Prerequisites(q.dependencies, b));
  }

  lemma SameWorkspace(a: map<string, Manifest>, b: map<string, Manifest>, published: set<string>)
    requires SamePackages(a, b)
    ensures WorkspaceOf(a, published) == WorkspaceOf(b, published)
  {
    var x, y := WorkspaceOf(a, published).packages, WorkspaceOf(b, published).packages;
    KeysStay(a, published);
    KeysStay(b, published);
    forall n | n in x ensures x[n] == y[n] { SameNode(a, b, published, n); }
    SameNodes(x, y);
  }

  lemma SameNode(a: map<string, Manifest>, b: map<string, Manifest>, published: set<string>, n: string)
    requires SamePackages(a, b) && n in a
    ensures WorkspaceOf(a, published).packages[n] == WorkspaceOf(b, published).packages[n]
  {
    SameInternal(a[n], b[n], a, b);
  }

  // ----- Roots -----

  lemma {:induction false} NamedIff(metadata: seq<Manifest>, n: string)
    ensures n in ByName(metadata) <==> exists i :: 0 <= i < |metadata| && metadata[i].name == n
  {
    if metadata != [] {
      var front := metadata[..|metadata| - 1];
      NamedIff(front, n);
      if n in ByName(front) {
        var i :| 0 <= i < |front| && front[i].name == n;
        assert metadata[i].name == n;
      }
      forall i | 0 <= i < |metadata| && metadata[i].name == n ensures n in ByName(metadata) {
        if i < |front| { assert front[i].name == n; }
      }
    }
  }

  lemma SameRoots(a: seq<Manifest>, b: seq<Manifest>)
    requires SamePackages(ByName(a), ByName(b))
    ensures RootNames(ByName(a), a) == RootNames(ByName(b), b)
  {
    forall n ensures n in Candidates(ByName(a), a) <==> n in Candidates(ByName(b), b) {
      NamedIff(a, n);
      NamedIff(b, n);
    }
    TextOrder();
    CanonicalUnique(TextLe, Candidates(ByName(a), a), Candidates(ByName(b), b));
  }

  /** The plan, or the error, depends only on the packages by name. */
  lemma PlanOfPackages(a: seq<Manifest>, b: seq<Manifest>, published: set<string>)
    requires SamePackages(ByName(a), ByName(b))
    ensures Plan(a, published) == Plan(b, published)
  {
    SameWorkspace(ByName(a), ByName(b), published);
    SameRoots(a, b);
  }

  // ----- Permutations -----

  lemma {:induction false} UniqueByName(metadata: seq<Manifest>, i: nat)
    requires UniqueNames(metadata) && i < |metadata|
    ensures metadata[i].name in ByName(metadata) && ByName(metadata)[metadata[i].name] == metadata[i]
    decreases |metadata|
  {
    var front := metadata[..|metadata| - 1];
    if i < |front| { UniqueByName(front, i); }
  }

  /** `b` lists the packages of `a` in another order, each with its dependencies in another order. */
  ghost predicate Reordered(a: seq<Manifest>, b: seq<Manifest>) {
    exists c: seq<Manifest> :: multiset(c) == multiset(a) && |c| == |b|
      && forall i :: 0 <= i < |b| ==> SamePackage(c[i], b[i])
  }

  lemma PermutedNames(a: seq<Manifest>, c: seq<Manifest>)
    requires UniqueNames(a) && multiset(a) == multiset(c)
    ensures UniqueNames(c)
  {
    var key := (m: Manifest) => m.name;
    assert KeysApart(a, key);
    ApartInAnyOrder(a, c, key);
    forall i, j | 0 <= i < j < |c| ensures c[i].name != c[j].name { assert key(c[i]) != key(c[j]); }
  }

  lemma PermutedHas(a: seq<Manifest>, c: seq<Manifest>, n: string)
    requires UniqueNames(a) && UniqueNames(c) && multiset(a) == multiset(c) && n in ByName(a)
    ensures n in ByName(c) && ByName(c)[n] == ByName(a)[n]
  {
    var i :| 0 <= i < |a| && a[i] == ByName(a)[n];
    assert a[i] in multiset(c);
    var j :| 0 <= j < |c| && c[j] == a[i];
    UniqueByName(c, j);
  }

  lemma PermutedStaysUnique(a: seq<Manifest>, c: seq<Manifest>)
    requires UniqueNames(a) && multiset(a) == multiset(c)
    ensures UniqueNames(c) && ByName(a) == ByName(c)
  {
    PermutedNames(a, c);
    forall n ensures n in ByName(a) <==> n in ByName(c) {
      if n in ByName(a) { PermutedHas(a, c, n); }
      if n in ByName(c) { PermutedHas(c, a, n); }
    }
    forall n | n in ByName(a) ensures ByName(a)[n] == ByName(c)[n] { PermutedHas(a, c, n); }
  }

  lemma SamePositions(c: seq<Manifest>, b: seq<Manifest>)
    requires UniqueNames(c) && |c| == |b| && forall i :: 0 <= i < |b| ==> SamePackage(c[i], b[i])
    ensures SamePackages(ByName(c), ByName(b))
  {
    assert UniqueNames(b);
    forall n ensures n in ByName(c) <==> n in ByName(b) {
      NamedIff(c, n);
      NamedIff(b, n);
    }
    forall n | n in ByName(c) ensures SamePackage(ByName(c)[n], ByName(b)[n]) {
      NamedIff(c, n);
      var i :| 0 <= i < |c| && c[i].name == n;
      UniqueByName(c, i);
      UniqueByName(b, i);
    }
  }

  /** With unique names, no permutation of packages or dependencies changes the plan or the error. */
  lemma PlanIgnoresOrder(a: seq<Manifest>, b: seq<Manifest>, published: set<string>)
    requires UniqueNames(a) && Reordered(a, b)
    ensures Plan(a, published) == Plan(b, published)
  {
    var c: seq<Manifest> :| multiset(c) == multiset(a) && |c| == |b|
      && forall i :: 0 <= i < |b| ==> SamePackage(c[i], b[i]);
    PermutedStaysUnique(a, c);
    SamePositions(c, b);
    PlanOfPackages(a, b, published);
  }
}
