/** What every run of lockfile mutators keeps, and when the reader accepts the writer's output. */
module LockfileTheorems {
  import opened Wrappers
  import opened Ordering
  import opened LockfileModel

  datatype Operation =
    | Insert(packages: seq<LockedPackage>, workspaces: seq<WorkspacePackage>)
    | DeriveHooks(key: string, outputs: seq<HookOutput>)
    | UseRoots(roots: seq<string>)
    | BindRoots(bindings: map<string, string>)
    | DropHooks

  function Try(env: Env, doc: Document, op: Operation): Option<Document> {
    match op
    case Insert(rs, ws) => InsertGraph(env, doc, rs, ws)
    case DeriveHooks(key, outputs) => SetDerivedHooks(env, doc, key, outputs)
    case UseRoots(roots) => SetRoots(env, doc, roots)
    case BindRoots(bindings) => SetRootBindings(env, doc, bindings)
    case DropHooks => Some(SourceGraph(doc))
  }

  /** A failed mutator leaves the document as it was. */
  function Apply(env: Env, doc: Document, op: Operation): Document {
    if Try(env, doc, op).Some? then Try(env, doc, op).value else doc
  }

  function ApplyAll(env: Env, doc: Document, ops: seq<Operation>): Document
    decreases |ops|
  {
    if ops == [] then doc else ApplyAll(env, Apply(env, doc, ops[0]), ops[1..])
  }

  // ----- The invariant -----

  /** What validation fixed about a package, whatever hooks were derived since. */
  ghost predicate Admitted(env: Env, p: LockedPackage) { ValidPackage(env, p.(hooks := [])) }

  ghost predicate PackagesOk(env: Env, packages: map<string, LockedPackage>) {
    forall k :: k in packages ==> k == KeyOf(env, packages[k]) && Admitted(env, packages[k])
  }

  ghost predicate WorkspacesOk(env: Env, workspaces: map<string, WorkspacePackage>) {
    forall k :: k in workspaces ==> k == env.workspaceKey(workspaces[k].source) && ValidWorkspace(env, workspaces[k])
  }

  /** The versions that a document can reach from `Lockfile::new`. */
  ghost predicate VersionOk(doc: Document) {
    doc.version in {LOCKFILE_VERSION, LIFECYCLE_VERSION, COPIED_VERSION}
  }

  /** Map keys are package keys, and every dependency binds its name to another member. */
  ghost predicate ClosedMembers(env: Env, packages: map<string, LockedPackage>,
                                workspaces: map<string, WorkspacePackage>) {
    && PackagesOk(env, packages)
    && WorkspacesOk(env, workspaces)
    && packages.Keys !! workspaces.Keys
    && BatchTargetsOk(env, packages, workspaces, packages.Keys + workspaces.Keys)
  }

  /** The closed graph: keys, targets, names, roots and bindings all fit together. */
  ghost predicate ClosedGraph(env: Env, doc: Document) {
    && VersionOk(doc)
    && env.canonicalDigest(doc.digest) == Some(doc.digest)
    && ClosedMembers(env, doc.packages, doc.workspaces)
    && Canonical(TextLe, doc.roots) == doc.roots
    && RootsOk(env, doc, doc.roots)
    && (doc.bindings != map[] ==> BindingsOk(env, doc.roots, doc.bindings))
  }

  // ----- Batches -----

  lemma {:induction false} PackageBatchOk(env: Env, taken: set<string>, batch: seq<LockedPackage>)
    requires FreshPackages(env, taken, batch)
    ensures PackagesOk(env, PackageBatch(env, batch)) && PackageBatch(env, batch).Keys !! taken
  {
    if batch != [] { PackageBatchOk(env, taken, batch[..|batch| - 1]); }
  }

  lemma {:induction false} WorkspaceBatchOk(env: Env, taken: set<string>, batch: seq<WorkspacePackage>)
    requires FreshWorkspaces(env, taken, batch)
    ensures WorkspacesOk(env, WorkspaceBatch(env, batch)) && WorkspaceBatch(env, batch).Keys !! taken
  {
    if batch != [] { WorkspaceBatchOk(env, taken, batch[..|batch| - 1]); }
  }

  lemma TargetsGrow(env: Env, packages: map<string, LockedPackage>, workspaces: map<string, WorkspacePackage>,
                    known: set<string>, more: set<string>)
    requires BatchTargetsOk(env, packages, workspaces, known) && known <= more
    ensures BatchTargetsOk(env, packages, workspaces, more)
  {
    forall k | k in packages ensures TargetsOk(env, k, packages[k].dependencies, packages[k].aliases, more) {
      assert TargetsOk(env, k, packages[k].dependencies, packages[k].aliases, known);
    }
    forall k | k in workspaces ensures TargetsOk(env, k, workspaces[k].dependencies, workspaces[k].aliases, more) {
      assert TargetsOk(env, k, workspaces[k].dependencies, workspaces[k].aliases, known);
    }
  }

  lemma TargetsMerge(env: Env, p: map<string, LockedPackage>, q: map<string, LockedPackage>,
                     v: map<string, WorkspacePackage>, w: map<string, WorkspacePackage>, known: set<string>)
    requires BatchTargetsOk(env, p, v, known) && BatchTargetsOk(env, q, w, known)
    ensures BatchTargetsOk(env, p + q, v + w, known)
  {
    forall k | k in p + q ensures TargetsOk(env, k, (p + q)[k].dependencies, (p + q)[k].aliases, known) {
      if k in q { assert (p + q)[k] == q[k]; } else { assert (p + q)[k] == p[k]; }
    }
    forall k | k in v + w ensures TargetsOk(env, k, (v + w)[k].dependencies, (v + w)[k].aliases, known) {
      if k in w { assert (v + w)[k] == w[k]; } else { assert (v + w)[k] == v[k]; }
    }
  }

  lemma RootsGrow(env: Env, doc: Document, more: Document)
    requires RootsOk(env, doc, doc.roots) && Known(doc) <= Known(more)
    ensures RootsOk(env, more, doc.roots)
  {
  }

  lemma InsertTargets(env: Env, doc: Document, rs: seq<LockedPackage>, ws: seq<WorkspacePackage>)
    requires BatchTargetsOk(env, doc.packages, doc.workspaces, Known(doc)) && InsertGraph(env, doc, rs, ws).Some?
    ensures var next := InsertGraph(env, doc, rs, ws).value;
            BatchTargetsOk(env, next.packages, next.workspaces, Known(next)) && Known(doc) <= Known(next)
  {
    var packages, workspaces := PackageBatch(env, rs), WorkspaceBatch(env, ws);
    var known := Known(doc) + packages.Keys + workspaces.Keys;
    var next := InsertGraph(env, doc, rs, ws).value;
    TargetsGrow(env, doc.packages, doc.workspaces, Known(doc), known);
    TargetsMerge(env, doc.packages, packages, doc.workspaces, workspaces, known);
    assert Known(next) == known;
  }

  lemma InsertMembers(env: Env, doc: Document, rs: seq<LockedPackage>, ws: seq<WorkspacePackage>)
    requires PackagesOk(env, doc.packages) && WorkspacesOk(env, doc.workspaces)
    requires doc.packages.Keys !! doc.workspaces.Keys && InsertGraph(env, doc, rs, ws).Some?
    ensures var next := InsertGraph(env, doc, rs, ws).value;
            && PackagesOk(env, next.packages) && WorkspacesOk(env, next.workspaces)
            && next.packages.Keys !! next.workspaces.Keys
  {
    var packages := PackageBatch(env, rs);
    PackageBatchOk(env, Known(doc), rs);
    WorkspaceBatchOk(env, Known(doc) + packages.Keys, ws);
    MergedOk(env, doc, packages, WorkspaceBatch(env, ws));
  }

  lemma InsertKeeps(env: Env, doc: Document, rs: seq<LockedPackage>, ws: seq<WorkspacePackage>)
    requires ClosedGraph(env, doc) && InsertGraph(env, doc, rs, ws).Some?
    ensures ClosedGraph(env, InsertGraph(env, doc, rs, ws).value)
  {
    InsertTargets(env, doc, rs, ws);
    InsertMembers(env, doc, rs, ws);
    RootsGrow(env, doc, InsertGraph(env, doc, rs, ws).value);
  }

  lemma MergedOk(env: Env, doc: Document, packages: map<string, LockedPackage>,
                 workspaces: map<string, WorkspacePackage>)
    requires PackagesOk(env, doc.packages) && PackagesOk(env, packages)
    requires WorkspacesOk(env, doc.workspaces) && WorkspacesOk(env, workspaces)
    ensures PackagesOk(env, doc.packages + packages) && WorkspacesOk(env, doc.workspaces + workspaces)
  {
    var p, w := doc.packages + packages, doc.workspaces + workspaces;
    forall k | k in p ensures k == KeyOf(env, p[k]) && Admitted(env, p[k]) {
      if k in packages { assert p[k] == packages[k]; } else { assert p[k] == doc.packages[k]; }
    }
    forall k | k in w ensures k == env.workspaceKey(w[k].source) && ValidWorkspace(env, w[k]) {
      if k in workspaces { assert w[k] == workspaces[k]; } else { assert w[k] == doc.workspaces[k]; }
    }
  }

  /** Two documents that agree on everything the graph consists of. */
  ghost predicate SameGraph(a: Document, b: Document) {
    && a.digest == b.digest && a.roots == b.roots && a.bindings == b.bindings && a.workspaces == b.workspaces
    && a.packages.Keys == b.packages.Keys
    && forall k :: k in a.packages ==> a.packages[k].(hooks := []) == b.packages[k].(hooks := [])
  }

  /** Hooks play no part in the closed graph. */
  lemma HooksDoNotMatter(env: Env, a: Document, b: Document)
    requires ClosedGraph(env, a) && SameGraph(a, b) && VersionOk(b)
    ensures ClosedGraph(env, b)
  {
    assert Known(a) == Known(b);
    PackagesWithoutHooks(env, a.packages, b.packages, a.workspaces, Known(a));
  }

  lemma PackagesWithoutHooks(env: Env, a: map<string, LockedPackage>, b: map<string, LockedPackage>,
                             w: map<string, WorkspacePackage>, known: set<string>)
    requires PackagesOk(env, a) && BatchTargetsOk(env, a, w, known) && a.Keys == b.Keys
    requires forall k :: k in a ==> a[k].(hooks := []) == b[k].(hooks := [])
    ensures PackagesOk(env, b) && BatchTargetsOk(env, b, w, known)
  {
    forall k | k in b
      ensures k == KeyOf(env, b[k]) && Admitted(env, b[k])
              && TargetsOk(env, k, b[k].dependencies, b[k].aliases, known) {
      assert a[k].(hooks := []) == b[k].(hooks := []);
      assert a[k].artifact == b[k].artifact;
      assert a[k].dependencies == b[k].dependencies && a[k].aliases == b[k].aliases;
      assert TargetsOk(env, k, a[k].dependencies, a[k].aliases, known);
    }
  }

  lemma CanonicalStays(roots: seq<string>)
    ensures Canonical(TextLe, Canonical(TextLe, roots)) == Canonical(TextLe, roots)
  {
    TextOrder();
    CanonicalElements(TextLe, roots);
    CanonicalUnique(TextLe, Canonical(TextLe, roots), roots);
  }

  lemma HookChangesKeep(env: Env, doc: Document, op: Operation)
    requires ClosedGraph(env, doc) && (op.DeriveHooks? || op.DropHooks?) && Try(env, doc, op).Some?
    ensures ClosedGraph(env, Try(env, doc, op).value)
  {
    HookChangesAreSmall(env, doc, op);
    HooksDoNotMatter(env, doc, Try(env, doc, op).value);
  }

  lemma HookChangesAreSmall(env: Env, doc: Document, op: Operation)
    requires VersionOk(doc) && (op.DeriveHooks? || op.DropHooks?) && Try(env, doc, op).Some?
    ensures SameGraph(doc, Try(env, doc, op).value) && VersionOk(Try(env, doc, op).value)
  {
    assert Try(env, doc, op).value.packages.Keys == doc.packages.Keys;
  }

  lemma UseRootsKeeps(env: Env, doc: Document, roots: seq<string>)
    requires ClosedGraph(env, doc) && SetRoots(env, doc, roots).Some?
    ensures ClosedGraph(env, SetRoots(env, doc, roots).value)
  {
    CanonicalStays(roots);
    RootsGrow(env, doc.(roots := Canonical(TextLe, roots)), SetRoots(env, doc, roots).value);
  }

  lemma BindRootsKeeps(env: Env, doc: Document, bindings: map<string, string>)
    requires ClosedGraph(env, doc) && SetRootBindings(env, doc, bindings).Some?
    ensures ClosedGraph(env, SetRootBindings(env, doc, bindings).value)
  {
    RootsGrow(env, doc, SetRootBindings(env, doc, bindings).value);
  }

  /** Every mutator keeps the graph closed, and a failed one changes nothing. */
  lemma ApplyKeeps(env: Env, doc: Document, op: Operation)
    requires ClosedGraph(env, doc)
    ensures ClosedGraph(env, Apply(env, doc, op))
    ensures Try(env, doc, op).None? ==> Apply(env, doc, op) == doc
  {
    if Try(env, doc, op).Some? {
      if op.Insert? {
        InsertKeeps(env, doc, op.packages, op.workspaces);
      } else if op.UseRoots? {
        UseRootsKeeps(env, doc, op.roots);
      } else if op.BindRoots? {
        BindRootsKeeps(env, doc, op.bindings);
      } else {
        HookChangesKeep(env, doc, op);
      }
    }
  }

  /** Over every run of mutators the graph stays closed. */
  lemma {:induction false} RunKeeps(env: Env, doc: Document, ops: seq<Operation>)
    requires ClosedGraph(env, doc)
    ensures ClosedGraph(env, ApplyAll(env, doc, ops))
    decreases |ops|
  {
    if ops != [] {
      ApplyKeeps(env, doc, ops[0]);
      RunKeeps(env, Apply(env, doc, ops[0]), ops[1..]);
    }
  }

  lemma NewIsClosed(env: Env, digest: string)
    requires Sound(env) && New(env, digest).Some?
    ensures ClosedGraph(env, New(env, digest).value)
  {
    assert Canonical(TextLe, []) == [];
  }

  // ----- The reader accepts what the writer emits -----

  /** No copied package carries hook outputs. */
  ghost predicate HooksOnRegistryOnly(env: Env, doc: Document) {
    forall k :: k in doc.packages && IsCopied(env, doc.packages[k]) ==> doc.packages[k].hooks == []
  }

  lemma PackagesReadIff(env: Env, doc: Document)
    requires Sound(env) && PackagesOk(env, doc.packages)
    ensures PackagesRead(env, doc) <==> HooksOnRegistryOnly(env, doc)
  {
    forall k | k in doc.packages
      ensures env.parseKey(k).Some?
      ensures ValidPackage(env, doc.packages[k]) <==> (IsCopied(env, doc.packages[k]) ==> doc.packages[k].hooks == []) {
      var p := doc.packages[k];
      assert Admitted(env, p);
      assert env.artifactOk(p.artifact);
    }
  }

  lemma WorkspacesAreRead(env: Env, doc: Document)
    requires Sound(env) && WorkspacesOk(env, doc.workspaces)
    ensures WorkspacesRead(env, doc)
  {
    forall k | k in doc.workspaces ensures env.parseKey(k).Some? {
      assert env.workspaceOk(doc.workspaces[k].source, doc.workspaces[k].digest);
    }
  }

  /**
   Exact condition: what `to_json` emits on a closed graph, `from_json` accepts and
   returns unchanged if and only if no copied package carries hook outputs.
   */
  lemma WrittenIsReadableIff(env: Env, doc: Document)
    requires Sound(env) && ClosedGraph(env, doc) && ToJson(env, doc).Some?
    ensures HooksOnRegistryOnly(env, doc) <==> FromJson(env, ToJson(env, doc).value) == Some(doc)
    ensures !HooksOnRegistryOnly(env, doc) <==> FromJson(env, ToJson(env, doc).value) == None
  {
    PackagesReadIff(env, doc);
    WorkspacesAreRead(env, doc);
    assert doc.(digest := doc.digest) == doc;
  }

  /** A caller's side of that condition: hooks are derived for registry packages only. */
  ghost predicate GuardedStep(env: Env, doc: Document, op: Operation) {
    op.DeriveHooks? && op.key in doc.packages && IsCopied(env, doc.packages[op.key]) ==> op.outputs == []
  }

  ghost predicate GuardedRun(env: Env, doc: Document, ops: seq<Operation>)
    decreases |ops|
  {
    ops == [] || (GuardedStep(env, doc, ops[0]) && GuardedRun(env, Apply(env, doc, ops[0]), ops[1..]))
  }

  lemma {:induction false} FreshBatchHasNoCopiedHooks(env: Env, taken: set<string>, batch: seq<LockedPackage>)
    requires FreshPackages(env, taken, batch)
    ensures forall k :: k in PackageBatch(env, batch) ==> ValidPackage(env, PackageBatch(env, batch)[k])
  {
    if batch != [] { FreshBatchHasNoCopiedHooks(env, taken, batch[..|batch| - 1]); }
  }

  lemma GuardedStepKeeps(env: Env, doc: Document, op: Operation)
    requires HooksOnRegistryOnly(env, doc) && GuardedStep(env, doc, op)
    ensures HooksOnRegistryOnly(env, Apply(env, doc, op))
  {
    if Try(env, doc, op).Some? && op.Insert? {
      FreshBatchHasNoCopiedHooks(env, Known(doc), op.packages);
      var batch, next := PackageBatch(env, op.packages), Try(env, doc, op).value;
      forall k | k in next.packages && IsCopied(env, next.packages[k]) ensures next.packages[k].hooks == [] {
        if k in batch { assert next.packages[k] == batch[k]; } else { assert next.packages[k] == doc.packages[k]; }
      }
    }
  }

  lemma {:induction false} GuardedRunKeeps(env: Env, doc: Document, ops: seq<Operation>)
    requires HooksOnRegistryOnly(env, doc) && GuardedRun(env, doc, ops)
    ensures HooksOnRegistryOnly(env, ApplyAll(env, doc, ops))
    decreases |ops|
  {
    if ops != [] {
      GuardedStepKeeps(env, doc, ops[0]);
      GuardedRunKeeps(env, Apply(env, doc, ops[0]), ops[1..]);
    }
  }

  /**
   Over every run from `Lockfile::new` that derives hooks for registry packages only,
   the reader accepts whatever the writer emits and gives back an equal lockfile.
   */
  lemma EveryWrittenLockfileReads(env: Env, digest: string, ops: seq<Operation>)
    requires Sound(env) && New(env, digest).Some? && GuardedRun(env, New(env, digest).value, ops)
    ensures var doc := ApplyAll(env, New(env, digest).value, ops);
            ClosedGraph(env, doc) && (ToJson(env, doc).Some? ==> FromJson(env, ToJson(env, doc).value) == Some(doc))
  {
    NewIsClosed(env, digest);
    RunKeeps(env, New(env, digest).value, ops);
    GuardedRunKeeps(env, New(env, digest).value, ops);
    var doc := ApplyAll(env, New(env, digest).value, ops);
    if ToJson(env, doc).Some? { WrittenIsReadableIff(env, doc); }
  }

  /**
   The guard is needed: on any closed graph that can be written under version 10,
   deriving a hook for a copied package makes a lockfile that is written and not read.
   */
  lemma UnguardedHooksAreLost(env: Env, doc: Document, key: string, outputs: seq<HookOutput>)
    requires Sound(env) && ClosedGraph(env, doc) && ToJson(env, doc).Some?
    requires key in doc.packages && IsCopied(env, doc.packages[key]) && outputs != [] && HooksOk(env, outputs)
    ensures var next := Apply(env, doc, DeriveHooks(key, outputs));
            ToJson(env, next).Some? && FromJson(env, ToJson(env, next).value).None?
  {
    var next := Apply(env, doc, DeriveHooks(key, outputs));
    ApplyKeeps(env, doc, DeriveHooks(key, outputs));
    assert next.packages[key].hooks == outputs;
    HooksAreWritten(env, doc, key, outputs);
    WrittenIsReadableIff(env, next);
  }

  lemma HooksAreWritten(env: Env, doc: Document, key: string, outputs: seq<HookOutput>)
    requires VersionOk(doc) && ToJson(env, doc).Some?
    requires key in doc.packages && IsCopied(env, doc.packages[key]) && HooksOk(env, outputs)
    ensures ToJson(env, Apply(env, doc, DeriveHooks(key, outputs))).Some?
  {
    var next := Apply(env, doc, DeriveHooks(key, outputs));
    assert doc.version == next.version == COPIED_VERSION;
    assert next.packages.Keys == doc.packages.Keys && next.packages != map[];
    forall k | k in next.packages ensures HooksOk(env, next.packages[k].hooks)
      && next.packages[k].artifact == doc.packages[k].artifact {
      if k != key { assert next.packages[k] == doc.packages[k]; }
    }
  }

  /** `source_graph` does not see hook outputs, so recipes bound to it survive them. */
  lemma SourceGraphIgnoresHooks(env: Env, doc: Document, key: string, outputs: seq<HookOutput>)
    requires VersionOk(doc) && SetDerivedHooks(env, doc, key, outputs).Some?
    ensures SourceGraph(SetDerivedHooks(env, doc, key, outputs).value) == SourceGraph(doc)
  {
    var a, b := SourceGraph(SetDerivedHooks(env, doc, key, outputs).value), SourceGraph(doc);
    assert a.packages.Keys == b.packages.Keys;
    assert a.packages == b.packages;
  }
}
