/**
 The release tool's loops: the mutating search, the publishing loop with a registry
 that may fail at any point, and the approval check of tools/release/automation.ts.
 */
module PublicationLoops {
  import opened Wrappers
  import opened Ordering
  import opened Publication
  import opened PublicationTheorems

  /** The sets that `publicationPlan` closes over, and its inner `visit`. */
  class Search {
    const ws: Workspace
    var visiting: set<string>
    var visited: set<string>
    var ordered: seq<string>

    constructor (ws: Workspace)
      ensures this.ws == ws && Contents() == START
    {
      this.ws := ws;
      visiting, visited, ordered := {}, {}, [];
    }

    function Contents(): Book
      reads this
    {
      Book(visiting, visited, ordered)
    }

    /** None on return, or the error thrown. */
    method VisitPackage(name: string) returns (thrown: Option<PublishError>)
      modifies this
      ensures match Visit(ws, name, old(Contents()))
              case Ok(b) => thrown.None? && Contents() == b
              case Err(e) => thrown == Some(e)
      decreases Unentered(ws, Contents()), 0
    {
      if name in visited { return None; }
      if name !in ws.packages { return Some(MissingPackage(name)); }
      if ws.packages[name].published {
        visited := visited + {name};
        return None;
      }
      if name in visiting { return Some(DependencyCycle(name)); }
      if !ws.packages[name].publishable { return Some(NotPublishable(name)); }
      EnteringDecreases(ws, Contents(), name);
      visiting := visiting + {name};
      thrown := VisitPackages(Deps(ws, name));
      if thrown.Some? { return; }
      visiting := visiting - {name};
      visited := visited + {name};
      ordered := ordered + [name];
      assert visiting == old(visiting);
    }

    method VisitPackages(names: seq<string>) returns (thrown: Option<PublishError>)
      modifies this
      ensures match VisitAll(ws, names, old(Contents()))
              case Ok(b) => thrown.None? && Contents() == b
              case Err(e) => thrown == Some(e)
      decreases Unentered(ws, Contents()), |names|
    {
      var i := 0;
      while i < |names|
        invariant 0 <= i <= |names|
        invariant visiting == old(visiting)
        invariant VisitAll(ws, names, old(Contents())) == VisitAll(ws, names[i..], Contents())
      {
        assert names[i..][0] == names[i] && names[i..][1..] == names[i + 1..];
        thrown := VisitPackage(names[i]);
        if thrown.Some? { return; }
        i := i + 1;
      }
      return None;
    }
  }

  /** `publicationPlan`. */
  method PublicationPlan(metadata: seq<Manifest>, published: set<string>) returns (r: Result<seq<string>, PublishError>)
    ensures r == Plan(metadata, published)
  {
    var packages := ByName(metadata);
    if TAPID !in packages { return Err(MissingPackage(TAPID)); }
    var search := new Search(WorkspaceOf(packages, published));
    var thrown := search.VisitPackages(RootNames(packages, metadata) + [TAPID]);
    if thrown.Some? { return Err(thrown.value); }
    return Ok(search.ordered);
  }

  /** What happens at one package: the lookup may throw, or publication before or after acceptance. */
  datatype Attempt = Accepted | Unreachable | Refused | AcceptedThenFailed

  function AttemptAt(attempts: seq<Attempt>, i: nat): Attempt { if i < |attempts| then attempts[i] else Refused }

  /** Its lookup answers, and the package at `i` is in the registry by then or its attempt succeeds. */
  predicate Passes(packages: map<string, Manifest>, plan: seq<string>, registry: set<string>, attempts: seq<Attempt>,
                   i: nat)
    requires i < |plan| && forall n :: n in plan ==> n in packages
  {
    AttemptAt(attempts, i) != Unreachable
    && (Identity(packages[plan[i]]) in Publish(packages, registry, plan[..i]) || AttemptAt(attempts, i) == Accepted)
  }

  /** `i` is the first package that does not pass. */
  ghost predicate StopsAt(packages: map<string, Manifest>, plan: seq<string>, registry: set<string>,
                          attempts: seq<Attempt>, i: nat)
    requires forall n :: n in plan ==> n in packages
  {
    i < |plan| && !Passes(packages, plan, registry, attempts, i)
    && forall j :: 0 <= j < i ==> Passes(packages, plan, registry, attempts, j)
  }

  /**
   `publishPackages` against a registry whose lookups are truthful when they answer and
   that may fail at any step. However it ends, what it added is a prefix of the plan.
   */
  method PublishPackages(packages: map<string, Manifest>, plan: seq<string>, registry: set<string>,
                         attempts: seq<Attempt>)
    returns (after: set<string>, k: nat, finished: bool)
    requires forall n :: n in plan ==> n in packages
    ensures k <= |plan| && after == Publish(packages, registry, plan[..k])
    ensures finished ==> k == |plan| && forall i :: 0 <= i < |plan| ==> Passes(packages, plan, registry, attempts, i)
    ensures !finished ==> exists i: nat :: StopsAt(packages, plan, registry, attempts, i)
                                           && k == if AttemptAt(attempts, i) == AcceptedThenFailed then i + 1 else i
  {
    after, k, finished := registry, 0, true;
    assert Publish(packages, registry, plan[..0]) == registry;
    while k < |plan|
      invariant 0 <= k <= |plan|
      invariant finished && after == Publish(packages, registry, plan[..k])
      invariant forall i :: 0 <= i < k ==> Passes(packages, plan, registry, attempts, i)
    {
      assert Passes(packages, plan, registry, attempts, k)
             || StopsAt(packages, plan, registry, attempts, k);
      var id := Identity(packages[plan[k]]);
      assert plan[..k + 1] == plan[..k] + [plan[k]];
      assert Publish(packages, registry, plan[..k + 1]) == Publish(packages, registry, plan[..k]) + {id};
      var attempt := AttemptAt(attempts, k);
      if attempt == Unreachable { return after, k, false; }
      if id !in after {
        if attempt == Refused { return after, k, false; }
        after := after + {id};
        if attempt == AcceptedThenFailed { return after, k + 1, false; }
      }
      k := k + 1;
    }
  }

  ghost predicate Approved(intent: seq<Package>, plan: seq<Package>, metadata: seq<Package>) {
    && |plan| <= |intent| && plan == intent[|intent| - |plan|..]
    && forall a :: a in intent ==> OnlyVersion(metadata, a)
  }

  /** Exactly one metadata entry has the name, and it has the approved version. */
  ghost predicate OnlyVersion(metadata: seq<Package>, a: Package) {
    exists i :: 0 <= i < |metadata| && metadata[i] == a
                && forall j :: 0 <= j < |metadata| && metadata[j].name == a.name ==> j == i
  }

  /** The one entry named like `a`, if there is exactly one; its version decides. */
  method MatchesMetadata(metadata: seq<Package>, a: Package) returns (ok: bool)
    ensures ok <==> OnlyVersion(metadata, a)
  {
    var i, matches, at := 0, 0, 0;
    while i < |metadata|
      invariant 0 <= i <= |metadata|
      invariant matches == 0 ==> forall j :: 0 <= j < i ==> metadata[j].name != a.name
      invariant matches >= 1 ==> 0 <= at < i && metadata[at].name == a.name
      invariant matches == 1 ==> forall j :: 0 <= j < i && metadata[j].name == a.name ==> j == at
      invariant matches >= 2 ==> exists j :: 0 <= j < i && j != at && metadata[j].name == a.name
      invariant matches >= 0
    {
      if metadata[i].name == a.name {
        if matches == 0 { at := i; }
        matches := matches + 1;
      }
      i := i + 1;
    }
    ok := matches == 1 && metadata[at].version == a.version;
  }

  /** `checkApprovedPlan`: accepts exactly the suffixes of the approved packages. */
  method CheckApprovedPlan(intent: seq<Package>, plan: seq<Package>, blockers: nat,
                           metadata: seq<Package>) returns (ok: bool)
    ensures ok <==> blockers == 0 && Approved(intent, plan, metadata)
  {
    if blockers != 0 || |plan| > |intent| { return false; }
    var remaining := intent[|intent| - |plan|..];
    var i := 0;
    while i < |remaining|
      invariant 0 <= i <= |remaining|
      invariant plan[..i] == remaining[..i]
    {
      if plan[i] != remaining[i] { return false; }
      i := i + 1;
    }
    assert plan[..i] == plan && remaining[..i] == remaining;
    i := 0;
    while i < |intent|
      invariant 0 <= i <= |intent|
      invariant forall j :: 0 <= j < i ==> OnlyVersion(metadata, intent[j])
    {
      var matched := MatchesMetadata(metadata, intent[i]);
      if !matched {
        assert intent[i] in intent;
        return false;
      }
      i := i + 1;
    }
    return true;
  }

  function Entries(metadata: seq<Manifest>): (r: seq<Package>)
    ensures |r| == |metadata|
    ensures forall i :: 0 <= i < |metadata| ==> r[i] == Package(metadata[i].name, metadata[i].version)
  {
    seq(|metadata|, i requires 0 <= i < |metadata| => Package(metadata[i].name, metadata[i].version))
  }

  lemma SuffixIsApproved(metadata: seq<Manifest>, packages: map<string, Manifest>, plan: seq<string>, k: nat)
    requires UniqueNames(metadata) && packages == ByName(metadata) && k <= |plan|
    requires forall i :: 0 <= i < |plan| ==> plan[i] in packages
    ensures Approved(ToPackages(packages, plan), ToPackages(packages, plan[k..]), Entries(metadata))
  {
    var intent, entries := ToPackages(packages, plan), Entries(metadata);
    forall a | a in intent ensures OnlyVersion(entries, a) {
      var i :| 0 <= i < |plan| && intent[i] == a;
      assert a == Package(plan[i], packages[plan[i]].version);
      KnownIsOnlyVersion(metadata, plan[i]);
    }
  }

  lemma KnownIsOnlyVersion(metadata: seq<Manifest>, name: string)
    requires UniqueNames(metadata) && name in ByName(metadata)
    ensures OnlyVersion(Entries(metadata), Package(name, ByName(metadata)[name].version))
  {
    var m :| 0 <= m < |metadata| && metadata[m] == ByName(metadata)[name];
    var a, entries := Package(name, metadata[m].version), Entries(metadata);
    assert entries[m] == a;
    assert forall j :: 0 <= j < |entries| && entries[j].name == name ==> j == m;
  }

  lemma PlannedAreKnown(metadata: seq<Manifest>, published: set<string>)
    requires Plan(metadata, published).Ok?
    ensures var plan := Plan(metadata, published).value;
            forall i :: 0 <= i < |plan| ==> plan[i] in ByName(metadata)
  {
    PlanIsExact(metadata, published);
    var plan := Plan(metadata, published).value;
    forall i | 0 <= i < |plan| ensures plan[i] in ByName(metadata) {
      assert Outstanding(GraphOf(metadata, published), plan[i]);
    }
  }

  /**
   Every crash point of `publishPackages` can be resumed: with the first `k` packages
   of the plan published, the next plan is the rest of the first one, and the approval
   check for the first plan accepts it.
   */
  lemma CrashIsResumable(metadata: seq<Manifest>, published: set<string>, k: nat)
    requires Plan(metadata, published).Ok? && k <= |Plan(metadata, published).value|
    requires CargoNames(ByName(metadata)) && UniqueNames(metadata)
    ensures var plan := Plan(metadata, published).value;
            Plan(metadata, Publish(ByName(metadata), published, plan[..k])) == Ok(plan[k..])
    ensures var plan := Plan(metadata, published).value;
            (forall i :: 0 <= i < |plan| ==> plan[i] in ByName(metadata))
            && Approved(ToPackages(ByName(metadata), plan), ToPackages(ByName(metadata), plan[k..]), Entries(metadata))
  {
    PlanResumes(metadata, published, k);
    PlannedAreKnown(metadata, published);
    SuffixIsApproved(metadata, ByName(metadata), Plan(metadata, published).value, k);
  }
}
