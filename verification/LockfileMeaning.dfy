/**
 The lockfile field by field: what each mutator changes and when it succeeds, what a closed
 document is, when it is written, and which documents are read.
 */
module LockfileMeaning {
  import opened Wrappers
  import opened Ordering
  import opened LockfileModel
  import opened LockfileTheorems

  // ----- Members -----

  /** The text is a package key of a package with this name. */
  ghost predicate KeyNames(env: Env, target: string, name: string) {
    exists w :: env.parseKey(target) == Some(KeyFacts(name, w))
  }

  ghost predicate AliasesFit(env: Env, dependencies: map<string, string>, aliases: map<string, string>) {
    forall n :: n in aliases ==>
      && env.isName(n) && env.isName(aliases[n]) && n != aliases[n]
      && n in dependencies && KeyNames(env, dependencies[n], aliases[n])
  }

  /** The target is the package of that name, or of the name behind the alias. */
  ghost predicate TargetFits(env: Env, name: string, target: string, aliases: map<string, string>) {
    KeyNames(env, target, name) || (name in aliases && KeyNames(env, target, aliases[name]))
  }

  /** Copied packages have neither declared integrity nor an address, and no hook outputs. */
  ghost predicate PackageFits(env: Env, p: LockedPackage) {
    && env.artifactOk(p.artifact)
    && (!env.isRegistry(p.artifact.registry) ==>
          p.artifact.declared == None && p.artifact.url == None && p.hooks == [])
    && AliasesFit(env, p.dependencies, p.aliases)
    && (forall n :: n in p.dependencies ==> env.isName(n))
  }

  ghost predicate WorkspaceFits(env: Env, w: WorkspacePackage) {
    && env.workspaceOk(w.source, w.digest)
    && AliasesFit(env, w.dependencies, w.aliases)
    && (forall n :: n in w.dependencies ==>
          TargetFits(env, n, w.dependencies[n], w.aliases) && w.dependencies[n] != env.workspaceKey(w.source))
  }

  /** No dependency dangles, leads to its own package or is bound under a foreign name. */
  ghost predicate TargetsFit(env: Env, key: string, dependencies: map<string, string>, aliases: map<string, string>,
                             known: set<string>) {
    forall n :: n in dependencies ==>
      dependencies[n] in known && dependencies[n] != key && TargetFits(env, n, dependencies[n], aliases)
  }

  lemma AliasesIff(env: Env, dependencies: map<string, string>, aliases: map<string, string>)
    ensures AliasesOk(env, dependencies, aliases) <==> AliasesFit(env, dependencies, aliases)
  {
    forall n | n in aliases && n in dependencies
      ensures KeyNames(env, dependencies[n], aliases[n])
              <==> env.parseKey(dependencies[n]).Some?
                   && aliases[n] == env.parseKey(dependencies[n]).value.name
    {
      KeyNamesIff(env, dependencies[n], aliases[n]);
    }
  }

  lemma KeyNamesIff(env: Env, target: string, name: string)
    ensures KeyNames(env, target, name)
            <==> env.parseKey(target).Some? && env.parseKey(target).value.name == name
  {
    if env.parseKey(target).Some? {
      var facts := env.parseKey(target).value;
      assert facts == KeyFacts(facts.name, facts.workspace);
    }
  }

  lemma MatchesIff(env: Env, name: string, target: string, aliases: map<string, string>)
    ensures NameMatches(env, name, target, aliases) <==> TargetFits(env, name, target, aliases)
  {
    KeyNamesIff(env, target, name);
    if name in aliases { KeyNamesIff(env, target, aliases[name]); }
  }

  lemma PackageIff(env: Env, p: LockedPackage)
    ensures ValidPackage(env, p) <==> PackageFits(env, p)
  {
    AliasesIff(env, p.dependencies, p.aliases);
  }

  lemma WorkspaceIff(env: Env, w: WorkspacePackage)
    ensures ValidWorkspace(env, w) <==> WorkspaceFits(env, w)
  {
    AliasesIff(env, w.dependencies, w.aliases);
    forall n | n in w.dependencies
      ensures NameMatches(env, n, w.dependencies[n], w.aliases) <==> TargetFits(env, n, w.dependencies[n], w.aliases)
    {
      MatchesIff(env, n, w.dependencies[n], w.aliases);
    }
  }

  lemma TargetsIff(env: Env, key: string, dependencies: map<string, string>, aliases: map<string, string>,
                   known: set<string>)
    ensures TargetsOk(env, key, dependencies, aliases, known) <==> TargetsFit(env, key, dependencies, aliases, known)
  {
    forall n | n in dependencies
      ensures NameMatches(env, n, dependencies[n], aliases) <==> TargetFits(env, n, dependencies[n], aliases)
    {
      MatchesIff(env, n, dependencies[n], aliases);
    }
  }

  /** A new lockfile is empty, has version 7 and the canonical form of the given digest. */
  lemma NewMeans(env: Env, digest: string)
    ensures match env.canonicalDigest(digest)
            case None => New(env, digest).None?
            case Some(t) => New(env, digest) == Some(Document(7, t, [], map[], map[], map[]))
  {
  }

  // ----- Inserting -----

  /** Keys of a batch of packages, and the one package that each of them gets. */
  ghost predicate Gains(env: Env, before: map<string, LockedPackage>, batch: seq<LockedPackage>,
                        after: map<string, LockedPackage>) {
    && (forall k :: k in after
                    <==> k in before || exists i :: 0 <= i < |batch| && env.artifactKey(batch[i].artifact) == k)
    && (forall k :: k in before ==> after[k] == before[k])
    && (forall i :: 0 <= i < |batch| ==> after[env.artifactKey(batch[i].artifact)] == batch[i])
  }

  ghost predicate GainsWorkspaces(env: Env, before: map<string, WorkspacePackage>, batch: seq<WorkspacePackage>,
                                  after: map<string, WorkspacePackage>) {
    && (forall k :: k in after
                    <==> k in before || exists i :: 0 <= i < |batch| && env.workspaceKey(batch[i].source) == k)
    && (forall k :: k in before ==> after[k] == before[k])
    && (forall i :: 0 <= i < |batch| ==> after[env.workspaceKey(batch[i].source)] == batch[i])
  }

  /** Every package fits, and its key is new: neither taken nor that of another one. */
  ghost predicate PackagesNew(env: Env, taken: set<string>, batch: seq<LockedPackage>) {
    && (forall i :: 0 <= i < |batch| ==>
          PackageFits(env, batch[i]) && env.artifactKey(batch[i].artifact) !in taken)
    && (forall i, j :: 0 <= i < j < |batch| ==>
          env.artifactKey(batch[i].artifact) != env.artifactKey(batch[j].artifact))
  }

  ghost predicate WorkspacesNew(env: Env, taken: set<string>, batch: seq<WorkspacePackage>) {
    && (forall i :: 0 <= i < |batch| ==>
          WorkspaceFits(env, batch[i]) && env.workspaceKey(batch[i].source) !in taken)
    && (forall i, j :: 0 <= i < j < |batch| ==>
          env.workspaceKey(batch[i].source) != env.workspaceKey(batch[j].source))
  }

  ghost function PackageKeys(env: Env, batch: seq<LockedPackage>): set<string> {
    set i | 0 <= i < |batch| :: env.artifactKey(batch[i].artifact)
  }

  ghost function WorkspaceKeys(env: Env, batch: seq<WorkspacePackage>): set<string> {
    set i | 0 <= i < |batch| :: env.workspaceKey(batch[i].source)
  }

  lemma PackageKeysBack(env: Env, batch: seq<LockedPackage>)
    requires batch != []
    ensures PackageKeys(env, batch)
            == PackageKeys(env, batch[..|batch| - 1]) + {env.artifactKey(batch[|batch| - 1].artifact)}
  {
    var front := batch[..|batch| - 1];
    forall k | k in PackageKeys(env, front) ensures k in PackageKeys(env, batch) {
      var i :| 0 <= i < |front| && env.artifactKey(front[i].artifact) == k;
      assert env.artifactKey(batch[i].artifact) == k;
    }
    forall k | k in PackageKeys(env, batch) && k != env.artifactKey(batch[|batch| - 1].artifact)
      ensures k in PackageKeys(env, front)
    {
      var i :| 0 <= i < |batch| && env.artifactKey(batch[i].artifact) == k;
      assert env.artifactKey(front[i].artifact) == k;
    }
  }

  lemma PackageNewBack(env: Env, taken: set<string>, batch: seq<LockedPackage>)
    requires batch != []
    ensures var front, last := batch[..|batch| - 1], batch[|batch| - 1];
            PackagesNew(env, taken, batch)
            <==> && PackagesNew(env, taken, front) && PackageFits(env, last)
                 && env.artifactKey(last.artifact) !in taken + PackageKeys(env, front)
  {
    var front, last := batch[..|batch| - 1], batch[|batch| - 1];
    assert forall i :: 0 <= i < |front| ==> batch[i] == front[i];
    if PackagesNew(env, taken, front) && env.artifactKey(last.artifact) !in PackageKeys(env, front) {
      forall i | 0 <= i < |front| ensures env.artifactKey(batch[i].artifact) != env.artifactKey(last.artifact) {
        assert env.artifactKey(front[i].artifact) in PackageKeys(env, front);
      }
    }
  }

  lemma {:induction false} FreshPackagesIff(env: Env, taken: set<string>, batch: seq<LockedPackage>)
    ensures FreshPackages(env, taken, batch) <==> PackagesNew(env, taken, batch)
    ensures PackageBatch(env, batch).Keys == PackageKeys(env, batch)
    decreases |batch|
  {
    if batch != [] {
      FreshPackagesIff(env, taken, batch[..|batch| - 1]);
      PackageIff(env, batch[|batch| - 1]);
      PackageKeysBack(env, batch);
      PackageNewBack(env, taken, batch);
    }
  }

  lemma WorkspaceKeysBack(env: Env, batch: seq<WorkspacePackage>)
    requires batch != []
    ensures WorkspaceKeys(env, batch)
            == WorkspaceKeys(env, batch[..|batch| - 1]) + {env.workspaceKey(batch[|batch| - 1].source)}
  {
    var front := batch[..|batch| - 1];
    forall k | k in WorkspaceKeys(env, front) ensures k in WorkspaceKeys(env, batch) {
      var i :| 0 <= i < |front| && env.workspaceKey(front[i].source) == k;
      assert env.workspaceKey(batch[i].source) == k;
    }
    forall k | k in WorkspaceKeys(env, batch) && k != env.workspaceKey(batch[|batch| - 1].source)
      ensures k in WorkspaceKeys(env, front)
    {
      var i :| 0 <= i < |batch| && env.workspaceKey(batch[i].source) == k;
      assert env.workspaceKey(front[i].source) == k;
    }
  }

  lemma WorkspaceNewBack(env: Env, taken: set<string>, batch: seq<WorkspacePackage>)
    requires batch != []
    ensures var front, last := batch[..|batch| - 1], batch[|batch| - 1];
            WorkspacesNew(env, taken, batch)
            <==> && WorkspacesNew(env, taken, front) && WorkspaceFits(env, last)
                 && env.workspaceKey(last.source) !in taken + WorkspaceKeys(env, front)
  {
    var front, last := batch[..|batch| - 1], batch[|batch| - 1];
    assert forall i :: 0 <= i < |front| ==> batch[i] == front[i];
    if WorkspacesNew(env, taken, front) && env.workspaceKey(last.source) !in WorkspaceKeys(env, front) {
      forall i | 0 <= i < |front| ensures env.workspaceKey(batch[i].source) != env.workspaceKey(last.source) {
        assert env.workspaceKey(front[i].source) in WorkspaceKeys(env, front);
      }
    }
  }

  lemma {:induction false} FreshWorkspacesIff(env: Env, taken: set<string>, batch: seq<WorkspacePackage>)
    ensures FreshWorkspaces(env, taken, batch) <==> WorkspacesNew(env, taken, batch)
    ensures WorkspaceBatch(env, batch).Keys == WorkspaceKeys(env, batch)
    decreases |batch|
  {
    if batch != [] {
      FreshWorkspacesIff(env, taken, batch[..|batch| - 1]);
      WorkspaceIff(env, batch[|batch| - 1]);
      WorkspaceKeysBack(env, batch);
      WorkspaceNewBack(env, taken, batch);
    }
  }

  /** Each element of a batch stands under its own key. */
  lemma {:induction false} PackageBatchHolds(env: Env, taken: set<string>, batch: seq<LockedPackage>, i: nat)
    requires PackagesNew(env, taken, batch) && i < |batch|
    ensures var m := PackageBatch(env, batch);
            var k := env.artifactKey(batch[i].artifact);
            k in m && m[k] == batch[i]
    decreases |batch|
  {
    if i < |batch| - 1 { PackageBatchHolds(env, taken, batch[..|batch| - 1], i); }
  }

  lemma {:induction false} WorkspaceBatchHolds(env: Env, taken: set<string>, batch: seq<WorkspacePackage>, i: nat)
    requires WorkspacesNew(env, taken, batch) && i < |batch|
    ensures var m := WorkspaceBatch(env, batch);
            var k := env.workspaceKey(batch[i].source);
            k in m && m[k] == batch[i]
    decreases |batch|
  {
    if i < |batch| - 1 { WorkspaceBatchHolds(env, taken, batch[..|batch| - 1], i); }
  }

  lemma PackagesGain(env: Env, taken: set<string>, before: map<string, LockedPackage>, batch: seq<LockedPackage>)
    requires PackagesNew(env, taken, batch) && before.Keys <= taken
    ensures Gains(env, before, batch, before + PackageBatch(env, batch))
  {
    FreshPackagesIff(env, taken, batch);
    forall i | 0 <= i < |batch| { PackageBatchHolds(env, taken, batch, i); }
  }

  lemma WorkspacesGain(env: Env, taken: set<string>, before: map<string, WorkspacePackage>,
                       batch: seq<WorkspacePackage>)
    requires WorkspacesNew(env, taken, batch) && before.Keys <= taken
    ensures GainsWorkspaces(env, before, batch, before + WorkspaceBatch(env, batch))
  {
    FreshWorkspacesIff(env, taken, batch);
    forall i | 0 <= i < |batch| { WorkspaceBatchHolds(env, taken, batch, i); }
  }

  /** Every dependency of the two batches leads to a member of the document or of a batch. */
  ghost predicate BatchesFit(env: Env, known: set<string>, rs: seq<LockedPackage>, ws: seq<WorkspacePackage>) {
    && (forall i :: 0 <= i < |rs| ==>
          TargetsFit(env, env.artifactKey(rs[i].artifact), rs[i].dependencies, rs[i].aliases, known))
    && (forall i :: 0 <= i < |ws| ==>
          TargetsFit(env, env.workspaceKey(ws[i].source), ws[i].dependencies, ws[i].aliases, known))
  }

  lemma BatchTargetsIff(env: Env, taken: set<string>, more: set<string>, rs: seq<LockedPackage>,
                        ws: seq<WorkspacePackage>, known: set<string>)
    requires PackagesNew(env, taken, rs) && WorkspacesNew(env, more, ws)
    ensures BatchTargetsOk(env, PackageBatch(env, rs), WorkspaceBatch(env, ws), known)
            <==> BatchesFit(env, known, rs, ws)
  {
    var p, w := PackageBatch(env, rs), WorkspaceBatch(env, ws);
    FreshPackagesIff(env, taken, rs);
    FreshWorkspacesIff(env, more, ws);
    forall i | 0 <= i < |rs|
      ensures var k := env.artifactKey(rs[i].artifact);
              k in p && (TargetsOk(env, k, p[k].dependencies, p[k].aliases, known)
                         <==> TargetsFit(env, k, rs[i].dependencies, rs[i].aliases, known))
    {
      PackageBatchHolds(env, taken, rs, i);
      TargetsIff(env, env.artifactKey(rs[i].artifact), rs[i].dependencies, rs[i].aliases, known);
    }
    forall i | 0 <= i < |ws|
      ensures var k := env.workspaceKey(ws[i].source);
              k in w && (TargetsOk(env, k, w[k].dependencies, w[k].aliases, known)
                         <==> TargetsFit(env, k, ws[i].dependencies, ws[i].aliases, known))
    {
      WorkspaceBatchHolds(env, more, ws, i);
      TargetsIff(env, env.workspaceKey(ws[i].source), ws[i].dependencies, ws[i].aliases, known);
    }
  }

  /**
   An insertion succeeds if and only if every element fits, all keys are new and different,
   and every dependency leads to another member of the document or of the two batches.
   */
  lemma InsertSucceedsIff(env: Env, doc: Document, rs: seq<LockedPackage>, ws: seq<WorkspacePackage>)
    ensures var taken := doc.packages.Keys + doc.workspaces.Keys;
            InsertGraph(env, doc, rs, ws).Some?
            <==> && PackagesNew(env, taken, rs)
                 && WorkspacesNew(env, taken + PackageKeys(env, rs), ws)
                 && BatchesFit(env, taken + PackageKeys(env, rs) + WorkspaceKeys(env, ws), rs, ws)
  {
    var taken := doc.packages.Keys + doc.workspaces.Keys;
    FreshPackagesIff(env, taken, rs);
    FreshWorkspacesIff(env, taken + PackageKeys(env, rs), ws);
    if PackagesNew(env, taken, rs) && WorkspacesNew(env, taken + PackageKeys(env, rs), ws) {
      BatchTargetsIff(env, taken, taken + PackageKeys(env, rs), rs, ws,
                      taken + PackageKeys(env, rs) + WorkspaceKeys(env, ws));
    }
  }

  /**
   What an insertion changes: both tables gain exactly the batch, each element under its own
   key, and a copied package raises the version to 10.
   */
  lemma InsertMeans(env: Env, doc: Document, rs: seq<LockedPackage>, ws: seq<WorkspacePackage>)
    requires InsertGraph(env, doc, rs, ws).Some?
    ensures var next := InsertGraph(env, doc, rs, ws).value;
            && Gains(env, doc.packages, rs, next.packages)
            && GainsWorkspaces(env, doc.workspaces, ws, next.workspaces)
            && next.digest == doc.digest && next.roots == doc.roots && next.bindings == doc.bindings
            && next.version == if exists i :: 0 <= i < |rs| && !env.isRegistry(rs[i].artifact.registry) then 10
                               else doc.version
  {
    InsertSucceedsIff(env, doc, rs, ws);
    var taken := doc.packages.Keys + doc.workspaces.Keys;
    PackagesGain(env, taken, doc.packages, rs);
    WorkspacesGain(env, taken + PackageKeys(env, rs), doc.workspaces, ws);
    assert (exists i :: 0 <= i < |rs| && IsCopied(env, rs[i]))
           <==> exists i :: 0 <= i < |rs| && !env.isRegistry(rs[i].artifact.registry) by {
      if i :| 0 <= i < |rs| && !env.isRegistry(rs[i].artifact.registry) { assert IsCopied(env, rs[i]); }
    }
  }

  // ----- Hooks -----

  predicate IsHook(hook: string) { hook == "preinstall" || hook == "install" || hook == "postinstall" }

  /** The order in which hooks run. */
  predicate RunsBefore(a: string, b: string) {
    || (a == "preinstall" && b == "install")
    || (a == "preinstall" && b == "postinstall")
    || (a == "install" && b == "postinstall")
  }

  /** Authenticated outputs, at most one for each hook, in the order in which hooks run. */
  ghost predicate HooksInOrder(env: Env, outputs: seq<HookOutput>) {
    && (forall i :: 0 <= i < |outputs| ==> env.hookOk(outputs[i]) && IsHook(outputs[i].hook))
    && (forall i, j :: 0 <= i < j < |outputs| ==> RunsBefore(outputs[i].hook, outputs[j].hook))
  }

  lemma HookRanks(a: string, b: string)
    ensures HookRank(a).Some? <==> IsHook(a)
    ensures RunsBefore(a, b) <==> HookRank(a).Some? && HookRank(b).Some? && HookRank(a).value < HookRank(b).value
  {
    assert |"preinstall"| == 10 && |"install"| == 7 && |"postinstall"| == 11;
  }

  lemma HooksIff(env: Env, outputs: seq<HookOutput>)
    ensures HooksOk(env, outputs) <==> HooksInOrder(env, outputs)
  {
    forall i | 0 <= i < |outputs| ensures HookRank(outputs[i].hook).Some? <==> IsHook(outputs[i].hook) {
      HookRanks(outputs[i].hook, outputs[i].hook);
    }
    if HooksOk(env, outputs) {
      forall i, j | 0 <= i < j < |outputs| ensures RunsBefore(outputs[i].hook, outputs[j].hook) {
        RanksRise(env, outputs, i, j);
        HookRanks(outputs[i].hook, outputs[j].hook);
      }
    }
    if HooksInOrder(env, outputs) {
      forall i | 0 < i < |outputs| ensures HookRank(outputs[i - 1].hook).value < HookRank(outputs[i].hook).value {
        HookRanks(outputs[i - 1].hook, outputs[i].hook);
      }
    }
  }

  lemma {:induction false} RanksRise(env: Env, outputs: seq<HookOutput>, i: nat, j: nat)
    requires HooksOk(env, outputs) && i < j < |outputs|
    ensures HookRank(outputs[i].hook).value < HookRank(outputs[j].hook).value
    decreases j
  {
    if i + 1 < j { RanksRise(env, outputs, i, j - 1); }
  }

  /** What deriving hooks changes: the outputs of one locked package, and the version up to 9. */
  lemma DeriveHooksMeans(env: Env, doc: Document, key: string, outputs: seq<HookOutput>)
    ensures SetDerivedHooks(env, doc, key, outputs).Some? <==> HooksInOrder(env, outputs) && key in doc.packages
    ensures SetDerivedHooks(env, doc, key, outputs).Some? ==>
              var next := SetDerivedHooks(env, doc, key, outputs).value;
              && next.packages.Keys == doc.packages.Keys
              && (forall k :: k in doc.packages && k != key ==> next.packages[k] == doc.packages[k])
              && next.packages[key].hooks == outputs
              && next.packages[key].artifact == doc.packages[key].artifact
              && next.packages[key].dependencies == doc.packages[key].dependencies
              && next.packages[key].aliases == doc.packages[key].aliases
              && next.digest == doc.digest && next.roots == doc.roots && next.bindings == doc.bindings
              && next.workspaces == doc.workspaces
              && (outputs == [] ==> next.version == doc.version)
              && (outputs != [] ==> next.version >= 9 && next.version >= doc.version
                                    && (next.version == 9 || next.version == doc.version))
  {
    HooksIff(env, outputs);
  }

  /** The source graph: no outputs anywhere, version 9 back to 7, everything else as it was. */
  lemma SourceGraphMeans(doc: Document)
    ensures var next := SourceGraph(doc);
            && next.packages.Keys == doc.packages.Keys
            && (forall k :: k in doc.packages ==>
                  && next.packages[k].hooks == []
                  && next.packages[k].artifact == doc.packages[k].artifact
                  && next.packages[k].dependencies == doc.packages[k].dependencies
                  && next.packages[k].aliases == doc.packages[k].aliases)
            && next.digest == doc.digest && next.roots == doc.roots && next.bindings == doc.bindings
            && next.workspaces == doc.workspaces
            && next.version == (if doc.version == 9 then 7 else doc.version)
  {
  }

  // ----- Roots -----

  /** What selecting roots changes: exactly the selected keys, sorted and distinct, and no bindings. */
  lemma UseRootsMeans(env: Env, doc: Document, selected: seq<string>)
    ensures SetRoots(env, doc, selected).Some?
            <==> forall k :: k in selected ==> env.parseKey(k).Some? && (k in doc.packages || k in doc.workspaces)
    ensures SetRoots(env, doc, selected).Some? ==>
              var next := SetRoots(env, doc, selected).value;
              && StrictlySorted(TextLe, next.roots)
              && (forall k :: k in next.roots <==> k in selected)
              && next.bindings == map[]
              && next.version == doc.version && next.digest == doc.digest
              && next.packages == doc.packages && next.workspaces == doc.workspaces
  {
    var sorted := Canonical(TextLe, selected);
    CanonicalElements(TextLe, selected);
    TextOrder();
    CanonicalStrict(TextLe, selected);
    RootsIff(env, doc, sorted);
  }

  lemma RootsIff(env: Env, doc: Document, roots: seq<string>)
    ensures RootsOk(env, doc, roots)
            <==> forall k :: k in roots ==> env.parseKey(k).Some? && (k in doc.packages || k in doc.workspaces)
  {
    if RootsOk(env, doc, roots) {
      forall k | k in roots ensures env.parseKey(k).Some? && (k in doc.packages || k in doc.workspaces) {
        var i :| 0 <= i < |roots| && roots[i] == k;
      }
    }
  }

  /** Names bind roots, and every root that is no workspace package is bound. */
  ghost predicate BindingsFit(env: Env, roots: seq<string>, bindings: map<string, string>) {
    && (forall n :: n in bindings ==> env.isName(n) && env.parseKey(bindings[n]).Some? && bindings[n] in roots)
    && (forall k :: k in roots && (forall n :: n in bindings ==> bindings[n] != k) ==>
          exists name :: env.parseKey(k) == Some(KeyFacts(name, true)))
  }

  lemma BindingsIff(env: Env, roots: seq<string>, bindings: map<string, string>)
    ensures BindingsOk(env, roots, bindings) <==> BindingsFit(env, roots, bindings)
  {
    forall k: string
      ensures (exists name :: env.parseKey(k) == Some(KeyFacts(name, true)))
              <==> env.parseKey(k).Some? && env.parseKey(k).value.workspace
    {
      if env.parseKey(k).Some? {
        var facts := env.parseKey(k).value;
        assert facts == KeyFacts(facts.name, facts.workspace);
      }
    }
    if BindingsOk(env, roots, bindings) {
      forall k | k in roots && (forall n :: n in bindings ==> bindings[n] != k)
        ensures exists name :: env.parseKey(k) == Some(KeyFacts(name, true))
      {
        var i :| 0 <= i < |roots| && roots[i] == k;
      }
    }
  }

  /** What binding roots changes: the bindings become the given ones, and nothing else does. */
  lemma BindRootsMeans(env: Env, doc: Document, chosen: map<string, string>)
    ensures SetRootBindings(env, doc, chosen).Some? <==> BindingsFit(env, doc.roots, chosen)
    ensures SetRootBindings(env, doc, chosen).Some? ==>
              var next := SetRootBindings(env, doc, chosen).value;
              && next.bindings == chosen
              && next.version == doc.version && next.digest == doc.digest && next.roots == doc.roots
              && next.packages == doc.packages && next.workspaces == doc.workspaces
  {
    BindingsIff(env, doc.roots, chosen);
  }

  // ----- Closed documents -----

  /** The graph of a document fits together; hook outputs play no part. */
  ghost predicate GraphFits(env: Env, doc: Document) {
    && (forall k :: k in doc.packages ==>
          && env.artifactKey(doc.packages[k].artifact) == k
          && PackageFits(env, doc.packages[k].(hooks := []))
          && TargetsFit(env, k, doc.packages[k].dependencies, doc.packages[k].aliases,
                        doc.packages.Keys + doc.workspaces.Keys))
    && (forall k :: k in doc.workspaces ==>
          && env.workspaceKey(doc.workspaces[k].source) == k
          && WorkspaceFits(env, doc.workspaces[k])
          && TargetsFit(env, k, doc.workspaces[k].dependencies, doc.workspaces[k].aliases,
                        doc.packages.Keys + doc.workspaces.Keys))
    && doc.packages.Keys !! doc.workspaces.Keys
  }

  ghost predicate RootsFit(env: Env, doc: Document) {
    && StrictlySorted(TextLe, doc.roots)
    && (forall k :: k in doc.roots ==> env.parseKey(k).Some? && (k in doc.packages || k in doc.workspaces))
    && (doc.bindings != map[] ==> BindingsFit(env, doc.roots, doc.bindings))
  }

  lemma GraphFitsIff(env: Env, doc: Document)
    ensures ClosedMembers(env, doc.packages, doc.workspaces) <==> GraphFits(env, doc)
  {
    forall k | k in doc.packages
      ensures Admitted(env, doc.packages[k]) <==> PackageFits(env, doc.packages[k].(hooks := []))
      ensures TargetsOk(env, k, doc.packages[k].dependencies, doc.packages[k].aliases, Known(doc))
              <==> TargetsFit(env, k, doc.packages[k].dependencies, doc.packages[k].aliases, Known(doc))
    {
      PackageIff(env, doc.packages[k].(hooks := []));
      TargetsIff(env, k, doc.packages[k].dependencies, doc.packages[k].aliases, Known(doc));
    }
    forall k | k in doc.workspaces
      ensures ValidWorkspace(env, doc.workspaces[k]) <==> WorkspaceFits(env, doc.workspaces[k])
      ensures TargetsOk(env, k, doc.workspaces[k].dependencies, doc.workspaces[k].aliases, Known(doc))
              <==> TargetsFit(env, k, doc.workspaces[k].dependencies, doc.workspaces[k].aliases, Known(doc))
    {
      WorkspaceIff(env, doc.workspaces[k]);
      TargetsIff(env, k, doc.workspaces[k].dependencies, doc.workspaces[k].aliases, Known(doc));
    }
  }

  lemma CanonicalIff(roots: seq<string>)
    ensures Canonical(TextLe, roots) == roots <==> StrictlySorted(TextLe, roots)
  {
    TextOrder();
    CanonicalStrict(TextLe, roots);
    CanonicalElements(TextLe, roots);
    if StrictlySorted(TextLe, roots) { StrictlySortedUnique(TextLe, Canonical(TextLe, roots), roots); }
  }

  lemma RootsFitIff(env: Env, doc: Document)
    ensures RootsFit(env, doc)
            <==> && Canonical(TextLe, doc.roots) == doc.roots && RootsOk(env, doc, doc.roots)
                 && (doc.bindings != map[] ==> BindingsOk(env, doc.roots, doc.bindings))
  {
    CanonicalIff(doc.roots);
    RootsIff(env, doc, doc.roots);
    BindingsIff(env, doc.roots, doc.bindings);
  }

  /** What every run of mutators keeps, on the fields. */
  lemma ClosedIff(env: Env, doc: Document)
    ensures ClosedGraph(env, doc)
            <==> && doc.version in {7, 9, 10}
                 && env.canonicalDigest(doc.digest) == Some(doc.digest)
                 && GraphFits(env, doc) && RootsFit(env, doc)
  {
    GraphFitsIff(env, doc);
    RootsFitIff(env, doc);
  }

  // ----- Writing -----

  /** Outputs are in order; version 9 is needed for any, and version 10 for a copied package. */
  ghost predicate VersionFits(env: Env, doc: Document) {
    && (forall k :: k in doc.packages ==> HooksInOrder(env, doc.packages[k].hooks))
    && (doc.version < 9 ==> forall k :: k in doc.packages ==> doc.packages[k].hooks == [])
    && (doc.version < 10 ==> forall k :: k in doc.packages ==> env.isRegistry(doc.packages[k].artifact.registry))
  }

  /** Every registry package says whether its integrity was declared. */
  ghost predicate Declared(env: Env, doc: Document) {
    forall k :: k in doc.packages && env.isRegistry(doc.packages[k].artifact.registry) ==>
      doc.packages[k].artifact.declared != None
  }

  /** A document with any member has a root. */
  ghost predicate Rooted(doc: Document) {
    doc.roots == [] ==> (forall k :: k !in doc.packages) && (forall k :: k !in doc.workspaces)
  }

  /** Root bindings and dependency aliases are recorded from version 7 on. */
  ghost predicate NamesFit(doc: Document) {
    doc.version < 7 ==> doc.bindings == map[] && forall k :: k in doc.packages ==> doc.packages[k].aliases == map[]
  }

  lemma SchemaIff(env: Env, doc: Document)
    ensures SchemaOk(env, doc) <==> VersionFits(env, doc) && NamesFit(doc)
  {
    forall k | k in doc.packages
      ensures HooksOk(env, doc.packages[k].hooks) <==> HooksInOrder(env, doc.packages[k].hooks)
    {
      HooksIff(env, doc.packages[k].hooks);
    }
    if SchemaOk(env, doc) && doc.version < 10 {
      forall k | k in doc.packages ensures env.isRegistry(doc.packages[k].artifact.registry) {
        assert !IsCopied(env, doc.packages[k]);
      }
    }
  }

  lemma RootedIff(doc: Document)
    ensures Rooted(doc) <==> !(Populated(doc) && doc.roots == [])
  {
    if doc.packages != map[] { var k :| k in doc.packages; }
    if doc.workspaces != map[] { var k :| k in doc.workspaces; }
  }

  /** Exactly when a document is written, and then as it is. */
  lemma WritesIff(env: Env, doc: Document)
    ensures ToJson(env, doc).Some?
            <==> VersionFits(env, doc) && NamesFit(doc) && (doc.version >= 6 ==> Rooted(doc) && Declared(env, doc))
    ensures ToJson(env, doc).Some? ==> ToJson(env, doc).value == doc
  {
    SchemaIff(env, doc);
    RootedIff(doc);
    DeclaredIff(env, doc);
  }

  // ----- Writing what a run has made -----

  /** Packages come in without outputs; they are derived afterwards. */
  ghost predicate InsertsBare(ops: seq<Operation>) {
    forall i, j :: 0 <= i < |ops| && ops[i].Insert? && 0 <= j < |ops[i].packages| ==> ops[i].packages[j].hooks == []
  }

  lemma StepKeepsVersionFit(env: Env, doc: Document, op: Operation)
    requires doc.version in {7, 9, 10} && VersionFits(env, doc) && InsertsBare([op])
    ensures VersionFits(env, Apply(env, doc, op)) && Apply(env, doc, op).version in {7, 9, 10}
  {
    if Try(env, doc, op).Some? {
      match op
      case Insert(rs, ws) => InsertKeepsVersionFit(env, doc, rs, ws);
      case DeriveHooks(key, outputs) => DeriveKeepsVersionFit(env, doc, key, outputs);
      case UseRoots(roots) => UseRootsMeans(env, doc, roots);
      case BindRoots(bindings) => BindRootsMeans(env, doc, bindings);
      case DropHooks => SourceGraphMeans(doc);
    }
  }

  lemma InsertKeepsVersionFit(env: Env, doc: Document, rs: seq<LockedPackage>, ws: seq<WorkspacePackage>)
    requires doc.version in {7, 9, 10} && VersionFits(env, doc) && InsertGraph(env, doc, rs, ws).Some?
    requires InsertsBare([Operation.Insert(rs, ws)])
    ensures VersionFits(env, InsertGraph(env, doc, rs, ws).value)
    ensures InsertGraph(env, doc, rs, ws).value.version in {7, 9, 10}
  {
    InsertMeans(env, doc, rs, ws);
    var op := Operation.Insert(rs, ws);
    assert [op][0] == op;
    forall i | 0 <= i < |rs| ensures rs[i].hooks == [] { assert [op][0].packages[i].hooks == []; }
    GainedVersionFits(env, doc, rs, InsertGraph(env, doc, rs, ws).value);
  }

  lemma GainedVersionFits(env: Env, doc: Document, rs: seq<LockedPackage>, next: Document)
    requires doc.version in {7, 9, 10} && VersionFits(env, doc) && Gains(env, doc.packages, rs, next.packages)
    requires forall i :: 0 <= i < |rs| ==> rs[i].hooks == []
    requires next.version == if exists i :: 0 <= i < |rs| && !env.isRegistry(rs[i].artifact.registry) then 10
                             else doc.version
    ensures VersionFits(env, next)
  {
    forall k | k in next.packages
      ensures HooksInOrder(env, next.packages[k].hooks)
      ensures next.version < 9 ==> next.packages[k].hooks == []
      ensures next.version < 10 ==> env.isRegistry(next.packages[k].artifact.registry)
    {
      if k !in doc.packages {
        var i :| 0 <= i < |rs| && env.artifactKey(rs[i].artifact) == k;
        assert next.packages[k] == rs[i];
      }
    }
  }

  lemma DeriveKeepsVersionFit(env: Env, doc: Document, key: string, outputs: seq<HookOutput>)
    requires doc.version in {7, 9, 10} && VersionFits(env, doc) && SetDerivedHooks(env, doc, key, outputs).Some?
    ensures VersionFits(env, SetDerivedHooks(env, doc, key, outputs).value)
    ensures SetDerivedHooks(env, doc, key, outputs).value.version in {7, 9, 10}
  {
    DeriveHooksMeans(env, doc, key, outputs);
    var next := SetDerivedHooks(env, doc, key, outputs).value;
    forall k | k in next.packages
      ensures HooksInOrder(env, next.packages[k].hooks)
      ensures next.packages[k].artifact == doc.packages[k].artifact
    {
    }
  }

  lemma {:induction false} RunKeepsVersionFit(env: Env, doc: Document, ops: seq<Operation>)
    requires doc.version in {7, 9, 10} && VersionFits(env, doc) && InsertsBare(ops)
    ensures VersionFits(env, ApplyAll(env, doc, ops)) && ApplyAll(env, doc, ops).version in {7, 9, 10}
    decreases |ops|
  {
    if ops != [] {
      assert InsertsBare([ops[0]]) by { assert [ops[0]][0] == ops[0]; }
      StepKeepsVersionFit(env, doc, ops[0]);
      RunKeepsVersionFit(env, Apply(env, doc, ops[0]), ops[1..]);
    }
  }

  /**
   Over every run from `Lockfile::new` that inserts packages without outputs: the result is
   written if and only if it has a root or is empty, and its registry packages say whether
   their integrity was declared. Versions and hook outputs never stand in the way.
   */
  lemma RunWritesIff(env: Env, digest: string, ops: seq<Operation>)
    requires New(env, digest).Some? && InsertsBare(ops)
    ensures var doc := ApplyAll(env, New(env, digest).value, ops);
            ToJson(env, doc).Some? <==> Rooted(doc) && Declared(env, doc)
  {
    RunKeepsVersionFit(env, New(env, digest).value, ops);
    WritesIff(env, ApplyAll(env, New(env, digest).value, ops));
  }

  // ----- Reading -----

  /** Key texts tell registry and copied packages from workspace packages. */
  ghost predicate Separate(env: Env) {
    && (forall a :: env.artifactOk(a) ==>
          env.parseKey(env.artifactKey(a)).Some? && !env.parseKey(env.artifactKey(a)).value.workspace)
    && (forall s, m :: env.workspaceOk(s, m) ==>
          env.parseKey(env.workspaceKey(s)).Some? && env.parseKey(env.workspaceKey(s)).value.workspace)
  }

  lemma ReadMembers(env: Env, doc: Document)
    requires Separate(env)
    ensures PackagesRead(env, doc) && WorkspacesRead(env, doc)
            && BatchTargetsOk(env, doc.packages, doc.workspaces, Known(doc))
            <==> GraphFits(env, doc) && HooksOnRegistryOnly(env, doc)
  {
    GraphFitsIff(env, doc);
    if PackagesRead(env, doc) && WorkspacesRead(env, doc) {
      forall k | k in doc.packages ensures env.parseKey(k).Some? && !env.parseKey(k).value.workspace {
        assert ValidPackage(env, doc.packages[k]);
      }
      forall k | k in doc.workspaces ensures env.parseKey(k).Some? && env.parseKey(k).value.workspace {
        assert ValidWorkspace(env, doc.workspaces[k]);
      }
      forall k | k in doc.packages ensures Admitted(env, doc.packages[k]) {
        assert ValidPackage(env, doc.packages[k]);
      }
    }
    if GraphFits(env, doc) && HooksOnRegistryOnly(env, doc) {
      forall k | k in doc.packages ensures ValidPackage(env, doc.packages[k]) && env.parseKey(k).Some? {
        assert Admitted(env, doc.packages[k]);
      }
      forall k | k in doc.workspaces ensures env.parseKey(k).Some? {
        assert env.workspaceOk(doc.workspaces[k].source, doc.workspaces[k].digest);
      }
    }
  }

  /**
   Exactly the documents that the reader accepts, once the digest is canonical: a supported
   version, workspaces only from version 7 on, a graph and roots that fit, what the version
   records, a root from version 5 on and declared integrity from version 6 on, and no copied
   package with outputs. Nothing but the digest changes.
   */
  lemma ReadsIff(env: Env, doc: Document)
    requires Separate(env)
    ensures FromJson(env, doc).Some?
            <==> env.canonicalDigest(doc.digest).Some? && Fits(env, doc)
    ensures FromJson(env, doc).Some? ==>
              FromJson(env, doc).value == doc.(digest := env.canonicalDigest(doc.digest).value)
  {
    if env.canonicalDigest(doc.digest).Some? {
      var read := doc.(digest := env.canonicalDigest(doc.digest).value);
      ReadableIff(env, read);
      SameButDigest(env, doc, read);
    }
  }

  /** Everything the reader insists on, the digest aside. */
  ghost predicate Fits(env: Env, doc: Document) {
    && doc.version in {4, 5, 6, 7, 9, 10}
    && (doc.version < 7 ==> doc.workspaces == map[])
    && GraphFits(env, doc) && RootsFit(env, doc)
    && VersionFits(env, doc) && NamesFit(doc)
    && (doc.version >= 5 ==> Rooted(doc))
    && (doc.version >= 6 ==> Declared(env, doc))
    && CopiedAreBare(env, doc)
  }

  /** No copied package has outputs. */
  ghost predicate CopiedAreBare(env: Env, doc: Document) {
    forall k :: k in doc.packages && !env.isRegistry(doc.packages[k].artifact.registry) ==>
      doc.packages[k].hooks == []
  }

  lemma CopiedAreBareIff(env: Env, doc: Document)
    ensures HooksOnRegistryOnly(env, doc) <==> CopiedAreBare(env, doc)
  {
  }

  lemma DeclaredIff(env: Env, doc: Document)
    ensures ProvenanceRecorded(env, doc) <==> Declared(env, doc)
  {
  }

  lemma SameButDigest(env: Env, a: Document, b: Document)
    requires b == a.(digest := b.digest)
    ensures GraphFits(env, a) == GraphFits(env, b) && RootsFit(env, a) == RootsFit(env, b)
    ensures VersionFits(env, a) == VersionFits(env, b) && NamesFit(a) == NamesFit(b) && Rooted(a) == Rooted(b)
    ensures Declared(env, a) == Declared(env, b) && Fits(env, a) == Fits(env, b)
  {
  }

  lemma ReadableIff(env: Env, doc: Document)
    requires Separate(env)
    ensures Readable(env, doc) <==> Fits(env, doc)
  {
    ReadMembers(env, doc);
    RootsFitIff(env, doc);
    SchemaIff(env, doc);
    RootedIff(doc);
    DeclaredIff(env, doc);
    CopiedAreBareIff(env, doc);
  }

  /**
   The reader and the writer agree: a document of a current version that is read is closed, is
   written again, and every closed document that is written is read unless a copied package has
   outputs.
   */
  lemma ReadIsWritten(env: Env, doc: Document)
    requires Separate(env) && doc.version in {7, 9, 10} && env.canonicalDigest(doc.digest) == Some(doc.digest)
    ensures FromJson(env, doc).Some?
            <==> ClosedGraph(env, doc) && ToJson(env, doc).Some? && CopiedAreBare(env, doc)
  {
    ReadsIff(env, doc);
    WritesIff(env, doc);
    ClosedIff(env, doc);
  }
}
