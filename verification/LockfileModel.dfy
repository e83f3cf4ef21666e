/**
 The lockfile document of crates/tapid-lockfile/src/model.rs: its mutators, and the
 checks of its writer and of its reader. JSON itself is the identity on documents.
 */
module LockfileModel {
  import opened Wrappers
  import opened Ordering

  const LOCKFILE_VERSION := 7
  const LIFECYCLE_VERSION := 9
  const COPIED_VERSION := 10
  const ROOTS_LEGACY_VERSION := 6
  const PROVENANCE_LEGACY_VERSION := 5
  const LEGACY_VERSION := 4

  datatype Artifact = Artifact(
    registry: string, name: string, version: string, integrity: string, declared: Option<bool>,
    unpacked: string, tree: string, url: Option<string>, peer: string, platform: string)
  datatype HookOutput = HookOutput(hook: string, key: string, tree: string, attestation: string)
  datatype LockedPackage = LockedPackage(
    artifact: Artifact, hooks: seq<HookOutput>, dependencies: map<string, string>, aliases: map<string, string>)
  datatype WorkspaceSource = WorkspaceSource(path: string, name: string, version: string)
  datatype WorkspacePackage = WorkspacePackage(
    source: WorkspaceSource, digest: string, dependencies: map<string, string>, aliases: map<string, string>)

  datatype Document = Document(
    version: nat,
    digest: string,
    roots: seq<string>,
    bindings: map<string, string>,
    packages: map<string, LockedPackage>,
    workspaces: map<string, WorkspacePackage>)

  /** What a package key text says, once parsed. */
  datatype KeyFacts = KeyFacts(name: string, workspace: bool)

  /** The parsers and printers that the document relies on. */
  datatype Env = Env(
    parseKey: string -> Option<KeyFacts>,
    isName: string -> bool,
    isRegistry: string -> bool,
    artifactOk: Artifact -> bool,
    artifactKey: Artifact -> string,
    workspaceOk: (WorkspaceSource, string) -> bool,
    workspaceKey: WorkspaceSource -> string,
    canonicalDigest: string -> Option<string>,
    hookOk: HookOutput -> bool)

  /** Printed keys parse, and canonical digests stay as they are. Module LockfileEnv proves it of the codec. */
  ghost predicate Sound(env: Env) {
    && (forall a :: env.artifactOk(a) ==> env.parseKey(env.artifactKey(a)).Some?)
    && (forall s, m :: env.workspaceOk(s, m) ==> env.parseKey(env.workspaceKey(s)).Some?)
    && (forall t :: env.canonicalDigest(t).Some? ==>
          env.canonicalDigest(env.canonicalDigest(t).value) == env.canonicalDigest(t))
  }

  // ----- Packages -----

  function KeyOf(env: Env, p: LockedPackage): string { env.artifactKey(p.artifact) }

  predicate IsCopied(env: Env, p: LockedPackage) { !env.isRegistry(p.artifact.registry) }

  /** Every alias renames an actual dependency to the name its target really has. */
  predicate AliasesOk(env: Env, dependencies: map<string, string>, aliases: map<string, string>) {
    forall n :: n in aliases ==>
      && env.isName(n) && env.isName(aliases[n])
      && n in dependencies && env.parseKey(dependencies[n]).Some?
      && aliases[n] == env.parseKey(dependencies[n]).value.name && n != aliases[n]
  }

  /** `LockedPackage::validate`. */
  predicate ValidPackage(env: Env, p: LockedPackage) {
    && env.artifactOk(p.artifact)
    && (IsCopied(env, p) ==> p.artifact.declared.None? && p.artifact.url.None? && p.hooks == [])
    && AliasesOk(env, p.dependencies, p.aliases)
    && (forall n :: n in p.dependencies ==> env.isName(n))
  }

  /** A dependency binding whose target's name is the one used, or its alias. */
  predicate NameMatches(env: Env, name: string, target: string, aliases: map<string, string>) {
    env.parseKey(target).Some?
    && (env.parseKey(target).value.name == name
        || (name in aliases && aliases[name] == env.parseKey(target).value.name))
  }

  /** `LockedWorkspacePackage::validate`. */
  predicate ValidWorkspace(env: Env, w: WorkspacePackage) {
    && env.workspaceOk(w.source, w.digest)
    && (forall n :: n in w.dependencies ==>
          NameMatches(env, n, w.dependencies[n], w.aliases) && w.dependencies[n] != env.workspaceKey(w.source))
    && AliasesOk(env, w.dependencies, w.aliases)
  }

  /** `validate_dependency_target` over all dependencies of one package. */
  predicate TargetsOk(env: Env, key: string, dependencies: map<string, string>, aliases: map<string, string>,
                      known: set<string>) {
    forall n :: n in dependencies ==>
      && dependencies[n] != key
      && NameMatches(env, n, dependencies[n], aliases)
      && dependencies[n] in known
  }

  function HookRank(hook: string): Option<nat> {
    if hook == "preinstall" then Some(0) else if hook == "install" then Some(1)
    else if hook == "postinstall" then Some(2) else None
  }

  /** `validate_derived_hooks`: authenticated outputs in strictly increasing hook order. */
  predicate HooksOk(env: Env, hooks: seq<HookOutput>) {
    && (forall i :: 0 <= i < |hooks| ==> env.hookOk(hooks[i]) && HookRank(hooks[i].hook).Some?)
    && (forall i :: 0 < i < |hooks| ==> HookRank(hooks[i - 1].hook).value < HookRank(hooks[i].hook).value)
  }

  // ----- Mutators -----

  function New(env: Env, digest: string): Option<Document> {
    if env.canonicalDigest(digest).None? then None
    else Some(Document(LOCKFILE_VERSION, env.canonicalDigest(digest).value, [], map[], map[], map[]))
  }

  function Known(doc: Document): set<string> { doc.packages.Keys + doc.workspaces.Keys }

  function PackageBatch(env: Env, batch: seq<LockedPackage>): map<string, LockedPackage> {
    if batch == [] then map[]
    else
      var last := batch[|batch| - 1];
      PackageBatch(env, batch[..|batch| - 1])[KeyOf(env, last) := last]
  }

  function WorkspaceBatch(env: Env, batch: seq<WorkspacePackage>): map<string, WorkspacePackage> {
    if batch == [] then map[]
    else
      var last := batch[|batch| - 1];
      WorkspaceBatch(env, batch[..|batch| - 1])[env.workspaceKey(last.source) := last]
  }

  /** Each package is valid and its key is new, also within the batch. */
  predicate FreshPackages(env: Env, taken: set<string>, batch: seq<LockedPackage>) {
    batch == []
    || (var last := batch[|batch| - 1];
        && FreshPackages(env, taken, batch[..|batch| - 1])
        && ValidPackage(env, last)
        && KeyOf(env, last) !in taken + PackageBatch(env, batch[..|batch| - 1]).Keys)
  }

  predicate FreshWorkspaces(env: Env, taken: set<string>, batch: seq<WorkspacePackage>) {
    batch == []
    || (var last := batch[|batch| - 1];
        && FreshWorkspaces(env, taken, batch[..|batch| - 1])
        && ValidWorkspace(env, last)
        && env.workspaceKey(last.source) !in taken + WorkspaceBatch(env, batch[..|batch| - 1]).Keys)
  }

  predicate BatchTargetsOk(env: Env, packages: map<string, LockedPackage>, workspaces: map<string, WorkspacePackage>,
                           known: set<string>) {
    && (forall k :: k in packages ==> TargetsOk(env, k, packages[k].dependencies, packages[k].aliases, known))
    && (forall k :: k in workspaces ==> TargetsOk(env, k, workspaces[k].dependencies, workspaces[k].aliases, known))
  }

  /** `insert_graph`: None when any check fails. */
  function InsertGraph(env: Env, doc: Document, rs: seq<LockedPackage>, ws: seq<WorkspacePackage>): Option<Document> {
    var packages, workspaces := PackageBatch(env, rs), WorkspaceBatch(env, ws);
    var known := Known(doc) + packages.Keys + workspaces.Keys;
    if FreshPackages(env, Known(doc), rs) && FreshWorkspaces(env, Known(doc) + packages.Keys, ws)
       && BatchTargetsOk(env, packages, workspaces, known)
    then Some(doc.(version := if exists i :: 0 <= i < |rs| && IsCopied(env, rs[i]) then COPIED_VERSION else doc.version,
                   packages := doc.packages + packages,
                   workspaces := doc.workspaces + workspaces))
    else None
  }

  /** `set_derived_hooks`, which does not ask where the package comes from. */
  function SetDerivedHooks(env: Env, doc: Document, key: string, outputs: seq<HookOutput>): Option<Document> {
    if !HooksOk(env, outputs) || key !in doc.packages then None
    else Some(doc.(packages := doc.packages[key := doc.packages[key].(hooks := outputs)],
                   version := if outputs != [] && doc.version < LIFECYCLE_VERSION then LIFECYCLE_VERSION
                              else doc.version))
  }

  predicate RootsOk(env: Env, doc: Document, roots: seq<string>) {
    forall i :: 0 <= i < |roots| ==> env.parseKey(roots[i]).Some? && roots[i] in Known(doc)
  }

  function SetRoots(env: Env, doc: Document, roots: seq<string>): Option<Document> {
    var sorted := Canonical(TextLe, roots);
    if RootsOk(env, doc, sorted) then Some(doc.(roots := sorted, bindings := map[])) else None
  }

  predicate BindingsOk(env: Env, roots: seq<string>, bindings: map<string, string>) {
    && (forall n :: n in bindings ==> env.isName(n) && env.parseKey(bindings[n]).Some? && bindings[n] in roots)
    && (forall i :: 0 <= i < |roots| ==>
          (exists n :: n in bindings && bindings[n] == roots[i])
          || (env.parseKey(roots[i]).Some? && env.parseKey(roots[i]).value.workspace))
  }

  function SetRootBindings(env: Env, doc: Document, bindings: map<string, string>): Option<Document> {
    if BindingsOk(env, doc.roots, bindings) then Some(doc.(bindings := bindings)) else None
  }

  /** `source_graph`: the document without the outputs of lifecycle hooks. */
  function SourceGraph(doc: Document): Document {
    doc.(version := if doc.version == LIFECYCLE_VERSION then LOCKFILE_VERSION else doc.version,
         packages := map k | k in doc.packages :: doc.packages[k].(hooks := []))
  }

  // ----- Writer and reader -----

  /** `validate_alias_schema`. */
  predicate SchemaOk(env: Env, doc: Document) {
    && (doc.version < LIFECYCLE_VERSION ==> forall k :: k in doc.packages ==> doc.packages[k].hooks == [])
    && (doc.version < COPIED_VERSION ==> forall k :: k in doc.packages ==> !IsCopied(env, doc.packages[k]))
    && (forall k :: k in doc.packages ==> HooksOk(env, doc.packages[k].hooks))
    && (doc.version < LOCKFILE_VERSION ==>
          doc.bindings == map[] && forall k :: k in doc.packages ==> doc.packages[k].aliases == map[])
  }

  predicate ProvenanceRecorded(env: Env, doc: Document) {
    forall k :: k in doc.packages && !IsCopied(env, doc.packages[k]) ==> doc.packages[k].artifact.declared.Some?
  }

  predicate Populated(doc: Document) { doc.packages != map[] || doc.workspaces != map[] }

  /** `to_json`. */
  function ToJson(env: Env, doc: Document): Option<Document> {
    if SchemaOk(env, doc)
       && !(doc.version >= ROOTS_LEGACY_VERSION && Populated(doc) && doc.roots == [])
       && (doc.version >= ROOTS_LEGACY_VERSION ==> ProvenanceRecorded(env, doc))
    then Some(doc) else None
  }

  predicate SupportedVersion(v: nat) {
    v in {COPIED_VERSION, LOCKFILE_VERSION, LIFECYCLE_VERSION, LEGACY_VERSION, PROVENANCE_LEGACY_VERSION,
        ROOTS_LEGACY_VERSION}
  }

  predicate PackagesRead(env: Env, doc: Document) {
    forall k :: k in doc.packages ==>
      env.parseKey(k).Some? && ValidPackage(env, doc.packages[k]) && k == KeyOf(env, doc.packages[k])
  }

  predicate WorkspacesRead(env: Env, doc: Document) {
    forall k :: k in doc.workspaces ==>
      env.parseKey(k).Some? && ValidWorkspace(env, doc.workspaces[k]) && k == env.workspaceKey(doc.workspaces[k].source)
  }

  /** Every check of `from_json`, on a document whose digest is already canonical. */
  predicate Readable(env: Env, doc: Document) {
    && SupportedVersion(doc.version)
    && !(doc.version >= PROVENANCE_LEGACY_VERSION && Populated(doc) && doc.roots == [])
    && (doc.version >= ROOTS_LEGACY_VERSION ==> ProvenanceRecorded(env, doc))
    && Canonical(TextLe, doc.roots) == doc.roots
    && (doc.version < LOCKFILE_VERSION ==> doc.workspaces == map[])
    && RootsOk(env, doc, doc.roots)
    && SchemaOk(env, doc)
    && (doc.bindings != map[] ==> BindingsOk(env, doc.roots, doc.bindings))
    && PackagesRead(env, doc)
    && WorkspacesRead(env, doc)
    && BatchTargetsOk(env, doc.packages, doc.workspaces, Known(doc))
  }

  /** `from_json`: the digest is rewritten canonically, everything else is only checked. */
  function FromJson(env: Env, doc: Document): Option<Document> {
    if env.canonicalDigest(doc.digest).None? then None
    else
      var read := doc.(digest := env.canonicalDigest(doc.digest).value);
      if Readable(env, read) then Some(read) else None
  }
}
