/** What a publication plan guarantees, and why an interrupted publication can be resumed. */
module PublicationTheorems {
  import opened Wrappers
  import opened Ordering
  import opened Publication

  // ----- The plan -----

  function GraphOf(metadata: seq<Manifest>, published: set<string>): Workspace {
    WorkspaceOf(ByName(metadata), published)
  }

  /** No two entries of the metadata share a name. */
  ghost predicate UniqueNames(metadata: seq<Manifest>) {
    forall i, j :: 0 <= i < j < |metadata| ==> metadata[i].name != metadata[j].name
  }

  function Itinerary(metadata: seq<Manifest>): seq<string> {
    RootNames(ByName(metadata), metadata) + [TAPID]
  }

  lemma KeysStay(packages: map<string, Manifest>, published: set<string>)
    ensures WorkspaceOf(packages, published).packages.Keys == packages.Keys
  {
  }

  lemma SameNodes(a: map<string, Node>, b: map<string, Node>)
    requires a.Keys == b.Keys && forall n :: n in a ==> a[n] == b[n]
    ensures a == b
  {
  }

  lemma ItineraryCovers(metadata: seq<Manifest>, published: set<string>, n: string)
    ensures Outstanding(GraphOf(metadata, published), n) ==> n in Itinerary(metadata)
    ensures n in Itinerary(metadata) && n != TAPID ==> Available(GraphOf(metadata, published), n)
  {
    var packages := ByName(metadata);
    CanonicalElements(TextLe, Candidates(packages, metadata));
    assert n in RootNames(packages, metadata) <==> n in Candidates(packages, metadata);
    if n in packages {
      var i :| 0 <= i < |metadata| && metadata[i] == packages[n];
      assert metadata[i].name == n;
    }
  }

  ghost predicate Covers(ws: Workspace, names: seq<string>) {
    forall n :: Outstanding(ws, n) ==> n in names
  }

  lemma SearchIsExact(ws: Workspace, names: seq<string>)
    requires VisitAll(ws, names, START).Ok? && Covers(ws, names)
    ensures var plan := VisitAll(ws, names, START).value.ordered;
            (forall n :: n in plan <==> Outstanding(ws, n)) && Distinct(plan) && DependencyFirst(ws, plan)
    ensures forall n :: n in names ==> Available(ws, n)
  {
    VisitAllKeeps(ws, names, START);
  }

  lemma SearchIsSound(ws: Workspace, names: seq<string>)
    requires VisitAll(ws, names, START).Ok? && Covers(ws, names)
    ensures Complete(ws) && Acyclic(ws)
  {
    SearchIsExact(ws, names);
    var plan := VisitAll(ws, names, START).value.ordered;
    forall n, d | Outstanding(ws, n) && d in Deps(ws, n) ensures Available(ws, d) {
      var i :| 0 <= i < |plan| && plan[i] == n;
      assert Satisfied(ws, plan[..i], plan[i]);
      if !IsPublished(ws, d) { assert d in plan; }
    }
    forall c ensures !IsCycle(ws, c) {
      OrderExcludesCycle(ws, plan, c);
    }
  }

  lemma ItineraryCoversAll(metadata: seq<Manifest>, published: set<string>)
    ensures Covers(GraphOf(metadata, published), Itinerary(metadata))
  {
    forall n | Outstanding(GraphOf(metadata, published), n) ensures n in Itinerary(metadata) {
      ItineraryCovers(metadata, published, n);
    }
  }

  /**
   If a plan is returned, it names exactly the publishable unpublished packages,
   each once, and every unpublished prerequisite strictly before its dependent.
   */
  lemma PlanIsExact(metadata: seq<Manifest>, published: set<string>)
    requires Plan(metadata, published).Ok?
    ensures var ws, plan := GraphOf(metadata, published), Plan(metadata, published).value;
            && (forall n :: n in plan <==> Outstanding(ws, n))
            && Distinct(plan)
            && DependencyFirst(ws, plan)
  {
    ItineraryCoversAll(metadata, published);
    SearchIsExact(GraphOf(metadata, published), Itinerary(metadata));
  }

  /**
   A plan is returned if and only if the unpublished graph is acyclic, complete and
   publishable, and `tapid` is present and published or publishable.
   */
  lemma PlanExistsIff(metadata: seq<Manifest>, published: set<string>)
    ensures var ws := GraphOf(metadata, published);
            Plan(metadata, published).Ok? <==> Available(ws, TAPID) && Complete(ws) && Acyclic(ws)
  {
    var ws := GraphOf(metadata, published);
    if Plan(metadata, published).Ok? {
      ItineraryCoversAll(metadata, published);
      SearchIsExact(ws, Itinerary(metadata));
      SearchIsSound(ws, Itinerary(metadata));
      assert TAPID in Itinerary(metadata);
    } else if Available(ws, TAPID) && Complete(ws) && Acyclic(ws) {
      forall n | n in Itinerary(metadata) ensures Available(ws, n) {
        ItineraryCovers(metadata, published, n);
      }
      VisitAllSucceeds(ws, Itinerary(metadata), START, []);
    }
  }

  // ----- `tapid` last -----

  ghost predicate NobodyNeedsTapid(ws: Workspace) {
    forall n :: Outstanding(ws, n) && n != TAPID ==> TAPID !in Deps(ws, n)
  }

  lemma {:induction false} VisitAvoidsTapid(ws: Workspace, name: string, b: Book)
    requires NobodyNeedsTapid(ws) && name != TAPID && TAPID !in b.visited && Visit(ws, name, b).Ok?
    ensures TAPID !in Visit(ws, name, b).value.visited
    decreases Unentered(ws, b), 0
  {
    if name !in b.visited && !IsPublished(ws, name) {
      EnteringDecreases(ws, b, name);
      VisitAllAvoidsTapid(ws, Deps(ws, name), b.(visiting := b.visiting + {name}));
    }
  }

  lemma {:induction false} VisitAllAvoidsTapid(ws: Workspace, names: seq<string>, b: Book)
    requires NobodyNeedsTapid(ws) && TAPID !in names && TAPID !in b.visited && VisitAll(ws, names, b).Ok?
    ensures TAPID !in VisitAll(ws, names, b).value.visited
    decreases Unentered(ws, b), |names|
  {
    if names != [] {
      VisitAvoidsTapid(ws, names[0], b);
      VisitAllAvoidsTapid(ws, names[1..], Visit(ws, names[0], b).value);
    }
  }

  lemma {:induction false} VisitAllAppend(ws: Workspace, a: seq<string>, c: seq<string>, b: Book)
    ensures VisitAll(ws, a + c, b)
            == if VisitAll(ws, a, b).Err? then VisitAll(ws, a, b) else VisitAll(ws, c, VisitAll(ws, a, b).value)
    decreases |a|
  {
    if a == [] {
      assert a + c == c;
    } else {
      assert (a + c)[0] == a[0] && (a + c)[1..] == a[1..] + c;
      if Visit(ws, a[0], b).Ok? { VisitAllAppend(ws, a[1..], c, Visit(ws, a[0], b).value); }
    }
  }

  /**
   Exact: an unpublished `tapid` comes last if and only if no other unpublished package
   depends on it.
   */
  lemma TapidIsLastIff(metadata: seq<Manifest>, published: set<string>)
    requires Plan(metadata, published).Ok? && Outstanding(GraphOf(metadata, published), TAPID)
    ensures Plan(metadata, published).value != []
    ensures var plan := Plan(metadata, published).value;
            plan[|plan| - 1] == TAPID <==> NobodyNeedsTapid(GraphOf(metadata, published))
  {
    if NobodyNeedsTapid(GraphOf(metadata, published)) {
      UnneededIsLast(metadata, published);
    } else {
      PlanIsExact(metadata, published);
      NeededIsNotLast(GraphOf(metadata, published), Plan(metadata, published).value);
    }
  }

  lemma UnneededIsLast(metadata: seq<Manifest>, published: set<string>)
    requires Plan(metadata, published).Ok?
    requires Outstanding(GraphOf(metadata, published), TAPID) && NobodyNeedsTapid(GraphOf(metadata, published))
    ensures var plan := Plan(metadata, published).value; plan != [] && plan[|plan| - 1] == TAPID
  {
    RootsAvoidTapid(ByName(metadata), metadata);
    PlanIsSearch(metadata, published);
    SearchEndsWithTapid(GraphOf(metadata, published), RootNames(ByName(metadata), metadata));
  }

  /** A dependency-first order puts a prerequisite before its dependent, so not last. */
  lemma NeededIsNotLast(ws: Workspace, plan: seq<string>)
    requires (forall n :: n in plan <==> Outstanding(ws, n)) && Distinct(plan) && DependencyFirst(ws, plan)
    requires Outstanding(ws, TAPID) && !NobodyNeedsTapid(ws)
    ensures plan != [] && plan[|plan| - 1] != TAPID
  {
    var n :| Outstanding(ws, n) && n != TAPID && TAPID in Deps(ws, n);
    var i :| 0 <= i < |plan| && plan[i] == n;
    assert Satisfied(ws, plan[..i], plan[i]);
    var j :| 0 <= j < i && plan[j] == TAPID;
  }

  lemma PlanIsSearch(metadata: seq<Manifest>, published: set<string>)
    requires Plan(metadata, published).Ok?
    ensures VisitAll(GraphOf(metadata, published), Itinerary(metadata), START).Ok?
    ensures Plan(metadata, published).value
            == VisitAll(GraphOf(metadata, published), Itinerary(metadata), START).value.ordered
  {
  }

  lemma RootsAvoidTapid(packages: map<string, Manifest>, metadata: seq<Manifest>)
    ensures TAPID !in RootNames(packages, metadata)
  {
    CanonicalElements(TextLe, Candidates(packages, metadata));
  }

  lemma SearchEndsWithTapid(ws: Workspace, roots: seq<string>)
    requires VisitAll(ws, roots + [TAPID], START).Ok? && TAPID !in roots
    requires Outstanding(ws, TAPID) && NobodyNeedsTapid(ws)
    ensures var plan := VisitAll(ws, roots + [TAPID], START).value.ordered; plan != [] && plan[|plan| - 1] == TAPID
  {
    VisitAllAppend(ws, roots, [TAPID], START);
    var b := VisitAll(ws, roots, START).value;
    VisitAllAvoidsTapid(ws, roots, START);
    assert VisitAll(ws, [TAPID], b) == Visit(ws, TAPID, b);
  }

  // ----- Recovery -----

  /** The same packages after those in `done` have been published as well. */
  ghost predicate Advanced(ws: Workspace, later: Workspace, done: seq<string>) {
    && later.packages.Keys == ws.packages.Keys
    && forall n :: n in ws.packages ==>
         later.packages[n] == ws.packages[n].(published := ws.packages[n].published || n in done)
  }

  /** What is left of a sequence once its first `k` elements are gone. */
  function Left(s: seq<string>, k: nat): seq<string> { if |s| <= k then [] else s[k..] }

  /** A point of the first search and the same point of the search after a crash. */
  ghost predicate Matches(later: Workspace, k: nat, b: Book, c: Book) {
    && c.visiting == b.visiting
    && c.ordered == Left(b.ordered, k)
    && c.visited <= b.visited
    && forall n :: n in b.visited && n !in c.visited ==> n in later.packages && IsPublished(later, n)
  }

  /** The facts about one interrupted plan that every step of the second search uses. */
  ghost predicate Interrupted(ws: Workspace, later: Workspace, plan: seq<string>, k: nat) {
    k <= |plan| && Distinct(plan) && Advanced(ws, later, plan[..k])
  }

  lemma AlreadyDone(ws: Workspace, later: Workspace, plan: seq<string>, k: nat, b: Book, c: Book, name: string)
    requires Interrupted(ws, later, plan, k) && Good(ws, b) && Matches(later, k, b, c)
    requires Visit(ws, name, b).Ok? && Visit(ws, name, b).value.ordered <= plan
    requires name in ws.packages && name !in b.visited && !IsPublished(ws, name) && name in plan[..k]
    ensures Visit(later, name, c).Ok? && Matches(later, k, Visit(ws, name, b).value, Visit(later, name, c).value)
  {
    VisitKeeps(ws, name, b);
    var after := Visit(ws, name, b).value;
    var last := |after.ordered| - 1;
    assert after.ordered[last] == name == plan[last];
    var j :| 0 <= j < k && plan[j] == name;
    assert j == last;
    assert after.ordered <= plan[..k];
    forall n | n in after.visited && n !in c.visited + {name} ensures n in later.packages && IsPublished(later, n) {
      if n in after.ordered { assert n in plan[..k]; }
    }
  }

  lemma {:induction false} VisitResumes(ws: Workspace, later: Workspace, plan: seq<string>, k: nat, b: Book, c: Book,
                                        name: string)
    requires Interrupted(ws, later, plan, k) && Good(ws, b) && Matches(later, k, b, c)
    requires Visit(ws, name, b).Ok? && Visit(ws, name, b).value.ordered <= plan
    ensures Visit(later, name, c).Ok? && Matches(later, k, Visit(ws, name, b).value, Visit(later, name, c).value)
    decreases Unentered(ws, b), 0
  {
    if name in b.visited || IsPublished(ws, name) {
    } else if name in plan[..k] {
      AlreadyDone(ws, later, plan, k, b, c, name);
    } else {
      EnteringDecreases(ws, b, name);
      var eb, ec := b.(visiting := b.visiting + {name}), c.(visiting := c.visiting + {name});
      var inner := VisitAll(ws, Deps(ws, name), eb).value;
      var after := Visit(ws, name, b).value;
      assert inner.ordered <= plan by { assert inner.ordered <= after.ordered; }
      VisitAllResumes(ws, later, plan, k, eb, ec, Deps(ws, name));
      NotYetDone(plan, k, inner.ordered, name);
    }
  }

  /** A package outside the published prefix is appended beyond it. */
  lemma NotYetDone(plan: seq<string>, k: nat, ordered: seq<string>, name: string)
    requires k <= |plan| && ordered + [name] <= plan && name !in plan[..k]
    ensures Left(ordered + [name], k) == Left(ordered, k) + [name]
  {
    var at := |ordered|;
    assert plan[at] == (ordered + [name])[at] == name;
  }

  lemma {:induction false} VisitAllResumes(ws: Workspace, later: Workspace, plan: seq<string>, k: nat, b: Book, c: Book,
                                           names: seq<string>)
    requires Interrupted(ws, later, plan, k) && Good(ws, b) && Matches(later, k, b, c)
    requires VisitAll(ws, names, b).Ok? && VisitAll(ws, names, b).value.ordered <= plan
    ensures VisitAll(later, names, c).Ok?
            && Matches(later, k, VisitAll(ws, names, b).value, VisitAll(later, names, c).value)
    decreases Unentered(ws, b), |names|
  {
    if names != [] {
      VisitKeeps(ws, names[0], b);
      var first := Visit(ws, names[0], b).value;
      VisitAllKeeps(ws, names[1..], first);
      assert first.ordered <= VisitAll(ws, names, b).value.ordered;
      VisitResumes(ws, later, plan, k, b, c, names[0]);
      VisitAllResumes(ws, later, plan, k, first, Visit(later, names[0], c).value, names[1..]);
    }
  }

  lemma SearchResumes(ws: Workspace, later: Workspace, names: seq<string>, k: nat)
    requires VisitAll(ws, names, START).Ok? && Covers(ws, names)
    requires k <= |VisitAll(ws, names, START).value.ordered|
    requires Advanced(ws, later, VisitAll(ws, names, START).value.ordered[..k])
    ensures VisitAll(later, names, START).Ok?
    ensures VisitAll(later, names, START).value.ordered == VisitAll(ws, names, START).value.ordered[k..]
  {
    SearchIsExact(ws, names);
    VisitAllResumes(ws, later, VisitAll(ws, names, START).value.ordered, k, START, START, names);
  }

  // ----- Registry identities -----

  /** Cargo package names never contain `@`, so `name@version` determines the name. */
  ghost predicate CargoNames(packages: map<string, Manifest>) {
    forall n :: n in packages ==> packages[n].name == n && '@' !in n
  }

  lemma IdentityInjective(a: string, v: string, b: string, w: string)
    requires '@' !in a && '@' !in b && a + "@" + v == b + "@" + w
    ensures a == b
  {
    var s := a + "@" + v;
    assert s[|a|] == '@' && s[|b|] == '@';
    assert a == s[..|a|] && b == s[..|b|];
  }

  /** Registry contents after the named packages have been published. */
  function Publish(packages: map<string, Manifest>, registry: set<string>, names: seq<string>): set<string> {
    registry + set n | n in names && n in packages :: Identity(packages[n])
  }

  lemma PublishAdvances(packages: map<string, Manifest>, published: set<string>, names: seq<string>)
    requires CargoNames(packages)
    ensures Advanced(WorkspaceOf(packages, published), WorkspaceOf(packages, Publish(packages, published, names)),
        names)
  {
    forall n | n in packages
      ensures Identity(packages[n]) in Publish(packages, published, names)
              <==> Identity(packages[n]) in published || n in names {
      if Identity(packages[n]) !in published && Identity(packages[n]) in Publish(packages, published, names) {
        var m :| m in names && m in packages && Identity(packages[m]) == Identity(packages[n]);
        IdentityInjective(m, packages[m].version, n, packages[n].version);
      }
    }
  }

  /**
   Recovery theorem: after any prefix of a plan has been published, planning again
   succeeds and yields exactly the rest of the plan.
   */
  lemma PlanResumes(metadata: seq<Manifest>, published: set<string>, k: nat)
    requires Plan(metadata, published).Ok? && k <= |Plan(metadata, published).value|
    requires CargoNames(ByName(metadata))
    ensures var plan := Plan(metadata, published).value;
            Plan(metadata, Publish(ByName(metadata), published, plan[..k])) == Ok(plan[k..])
  {
    var plan := Plan(metadata, published).value;
    var after := Publish(ByName(metadata), published, plan[..k]);
    ItineraryCoversAll(metadata, published);
    PublishAdvances(ByName(metadata), published, plan[..k]);
    SearchResumes(GraphOf(metadata, published), GraphOf(metadata, after), Itinerary(metadata), k);
  }

  /** At every crash point, whatever has been published has all its prerequisites published. */
  lemma CrashLeavesClosed(metadata: seq<Manifest>, published: set<string>, k: nat, i: nat, d: string)
    requires Plan(metadata, published).Ok? && i < k <= |Plan(metadata, published).value|
    requires Plan(metadata, published).value[i] in ByName(metadata)
    requires d in InternalDependencies(ByName(metadata)[Plan(metadata, published).value[i]], ByName(metadata))
    ensures d in ByName(metadata)
    ensures Identity(ByName(metadata)[d]) in Publish(ByName(metadata), published, Plan(metadata, published).value[..k])
  {
    var plan := Plan(metadata, published).value;
    PlanIsExact(metadata, published);
    assert Satisfied(GraphOf(metadata, published), plan[..i], plan[i]);
    if d in plan[..i] { assert d in plan[..k]; }
  }
}
