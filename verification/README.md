# Tapid verification model

Tapid is a package manager. This project models the algorithms of Tapid whose
correctness is global - over graphs, whole runs or encodings - and proves what they
promise. `dafny verify dfyconfig.toml` checks every proof.

| modules | component |
|---|---|
| `LayoutModel`, `LayoutRun`, `LayoutResolution`, `LayoutBookkeeping`, `LayoutPlanner`, `LayoutTheorems`, `LayoutFailure`, `LayoutOutcome`, `LayoutSuccess`, `LayoutOutline`, `LayoutWitness`, `LayoutRepair`, `LayoutLoops`, `LayoutPaths` | the `node_modules` hoisting planner |
| `Publication`, `PublicationTheorems`, `PublicationOrder`, `PublicationLoops`, `PublicationMeaning`, `PublicationWitness` | the dependency-ordered publication plan and its crash recovery |
| `KeyCodec`, `PackageKeys`, `PackageNames`, `CodecMeaning` | lockfile key codec |
| `LockfileModel`, `LockfileTheorems`, `LockfileMeaning`, `LockfileObject`, `LockfileEnv`, `LockfileWitness` | the lockfile, its writer and its reader |
| `NpmSelection` | npm-lock platform selection |
| `ArchiveValidation`, `ArchiveMeaning`, `Components` | archive validation and the read budget |
| `Framing`, `TreeModel`, `TreeRecords`, `TreeStream`, `TreeTheorems`, `TreeMeaning`, `TreeEdits`, `TreeRearrangement`, `TreeCollisions`, `TreeWitness` | the canonical tree digest |
| `TapidPack`, `PackMeaning` | packing and streaming inspection |
| `WindowsQuoting` | Windows argument quoting |
| `Wrappers`, `Ordering`, `Text` | options, sorting, splitting and joining |

Loops and objects of the source are methods and classes (`LayoutLoops`,
`PublicationLoops`, `LockfileObject`, `ArchiveValidation`, and the loops inside the
other modules). Each is proved equal to a function or a predicate, and the theorems are
about those. The `Meaning` modules, `LayoutFailure` and `LayoutOutcome` state what these
functions compute on the fields and characters of their inputs, without the functions
themselves.

## Where the code does less than it says

- The planner's intent is never to return an incomplete layout
  (crates/tapid-linker/src/layout.rs:479-480). Its selection loop does not look at edges
  that were finished earlier, so a later placement can shadow one of them and the
  returned layout can be wrong: `LayoutWitness.ReturnedLayoutCanBeWrong`. The exact
  condition for the returned plan is `LayoutTheorems.PlanResolvesIff`, per turn it is
  `LayoutResolution.TurnKeepsEdgeIff`, and at every moment of a run
  `LayoutResolution.ShadowFreeIff`. A shadow alone does not decide it, because a later
  placement can repair it (`LayoutRepair.ShadowCanBeRepaired`). On the input alone: a name
  is safe when all edges of it lead to one instance, whatever the roots and the workspace
  links do (`LayoutTheorems.PlanResolvesBoundOnce`); two instances are enough to break it,
  as `LayoutWitness.ReturnedLayoutCanBeWrong` shows.
- The publication plan promises that `tapid` is ordered last
  (tools/release/publish.ts:74-78). It is, if and only if no other unpublished package
  depends on it: `PublicationTheorems.TapidIsLastIff`, with
  `PublicationWitness.TapidNotAlwaysLast`.
- `set_derived_hooks` accepts copied packages, which `validate` refuses, so the writer
  can emit a lockfile that the reader rejects: `LockfileTheorems.WrittenIsReadableIff`
  gives the exact condition, `LockfileWitness.LostHooksExample` a run.
- The tree walk spells a backslash in a file name as a separator, and a name that is not
  valid Unicode with replacement characters. The digest depends on directory order if and
  only if two entries of one spelling and type differ in contents
  (`TreeStream.StreamIgnoresOrderIff`), and a tree for which it does not shares its
  stream with another tree if and only if some entry can stand in a free place under its
  spelling, or two entries of one spelling can be exchanged (`TreeCollisions.CollidesIff`);
  on Unix that is every tree without a backslash in a name
  that has an entry below a root directory which the manifest does not pin
  (`TreeCollisions.UnixCollidesIff`). Examples are `TreeWitness.BackslashShowsOrder` and
  `TreeWitness.BackslashCollides`.
- An escaped Windows argument has no bare metacharacter, except that the empty argument
  is printed as two bare quotes: `WindowsQuoting.EscapeIsInertIff`.

## Model

| member | source | states |
|---|---|---|
| LayoutRun.TurnKeeps | crates/tapid-linker/src/layout.rs:415-499 | Every turn of the worklist keeps the invariant: each pending item's bases are exactly the prefixes of its parent's placement path, the parent is placed and has that edge, its lineage lies in the finite space of instances times lookup vectors, no placement is reserved. The measure strictly decreases. |
| LayoutRun.ChildrenWeighLess | crates/tapid-linker/src/layout.rs:473-498 | Why the worklist ends on cyclic and aliased graphs: the items enqueued for a placement together weigh less than the item that caused it, because their lineage has grown inside a finite space. |
| LayoutRun.PrefixesExtend | crates/tapid-linker/src/layout.rs:464-465 | Cutting the bases at the chosen index and adding the new directory gives exactly the prefixes of the new placement path. |
| LayoutResolution.ScanIsResolve | crates/tapid-linker/src/layout.rs:419-435 | The scan over bases finds what nearest-ancestor lookup from the parent finds, reserved workspace names included. |
| LayoutResolution.ChosenIsJustInside | crates/tapid-linker/src/layout.rs:440-448 | The base selected is the one just inside the nearest holder of the name. |
| LayoutResolution.LookupIsResolve | crates/tapid-linker/src/layout.rs:466-488 | A lookup recorded in a lineage state is a real resolution, so cutting a repeated state leaves its children resolved. |
| LayoutResolution.PlacementFrame | crates/tapid-linker/src/layout.rs:457 | Exact frame: a placement changes a lookup if and only if it lies on the lookup path, nearer than the current answer, and then it is the answer. |
| LayoutResolution.TurnWritesOnce | crates/tapid-linker/src/layout.rs:436-463 | A turn adds at most one placement, and only in a directory that held neither a package nor a workspace link. |
| LayoutResolution.TurnResolves | crates/tapid-linker/src/layout.rs:415-499 | Step theorem: after its turn, nearest lookup from the parent finds exactly the locked child of the pending edge. |
| LayoutResolution.TurnHoistsOutermost | crates/tapid-linker/src/layout.rs:440-448 | Every base outside the chosen one is taken, or a placement there would not resolve the edge. |
| LayoutResolution.ConflictMeansOwnDirectoryTaken | crates/tapid-linker/src/layout.rs:449-456 | A turn runs out of bases if and only if the parent's own `node_modules` already holds the name. |
| LayoutResolution.TurnKeepsEdgeIff | crates/tapid-linker/src/layout.rs:440-457 | An edge that resolves before a turn resolves after it if and only if the turn does not overtake its answer. |
| LayoutResolution.OvertakenSeesAnother | crates/tapid-linker/src/layout.rs:440-457 | An overtaken edge always ends up at another identity: a turn never repeats the identity that it hides. |
| LayoutResolution.TurnKeepsSettled | crates/tapid-linker/src/layout.rs:415-499 | A turn that shadows no finished edge of a name keeps every edge of that name pending or resolved, the children of the new placement included. |
| LayoutResolution.RunResolves | crates/tapid-linker/src/layout.rs:415-499 | Conditional final theorem for whole runs: a name never shadowed late resolves from every placement at the end. |
| LayoutResolution.ShadowFreeIff | crates/tapid-linker/src/layout.rs:415-499 | Over whole runs, all finished edges of a name stay right at every moment if and only if no turn shadows one of them. |
| LayoutResolution.RunResolvesIff | crates/tapid-linker/src/layout.rs:415-499 | An edge that is unfinished or right when a run starts is right at its end if and only if no turn after the edge's own shadows it, or the last one to do so places its own child. |
| LayoutResolution.OneIdentityRun | crates/tapid-linker/src/layout.rs:415-499 | A name with one identity among the edges is never shadowed late, whatever the roots, the workspace links and the other names do. |
| LayoutBookkeeping.RunKeepsTables | crates/tapid-linker/src/layout.rs:415-499 | Over every run activation mirrors placements, reachable is the set of placed instances, and no earlier placement is ever moved or replaced. |
| LayoutBookkeeping.RunStaysWithin | crates/tapid-linker/src/layout.rs:415-499 | The reachable set never leaves any set that is closed under edges. |
| LayoutBookkeeping.FinishedIsClosed | crates/tapid-linker/src/layout.rs:436-439 | When the worklist is empty, the reachable set is closed under edges in spite of the two cut-offs. |
| LayoutPlanner.BuiltGraphOk | crates/tapid-linker/src/layout.rs:346-373 | After validation every edge joins known instances, its name is among the lookup names, and the children of an instance are exactly its edges. |
| LayoutPlanner.SeedKeeps | crates/tapid-linker/src/layout.rs:378-413 | Root placement establishes every invariant that the worklist starts from. |
| LayoutPlanner.SeedBinds | crates/tapid-linker/src/layout.rs:382-396 | Root placement binds every root name to its own child. |
| LayoutTheorems.PlanIsWrittenOnce | crates/tapid-linker/src/layout.rs:382-510 | In a returned plan activation targets are pairwise distinct, are exactly the placements, carry the storage path of the instance placed there, are never a reserved workspace name, and every root name binds its child. |
| LayoutTheorems.ValidatedStorage | crates/tapid-linker/src/layout.rs:312-345 | The storage table gives every instance its own storage path. |
| LayoutTheorems.SearchIsReachability | crates/tapid-linker/src/layout.rs:382-499 | Whenever the worklist finishes, the reachable set is the least set that holds the root children and is closed under edges. |
| LayoutTheorems.PlanReachesExactly | crates/tapid-linker/src/layout.rs:382-510 | A returned plan places exactly the instances reachable from the roots, each at least once, and no edge starts outside them. |
| LayoutTheorems.UnknownParentIff | crates/tapid-linker/src/layout.rs:500-502 | After the worklist the planner fails if and only if some edge starts at an unreachable instance, and it reports the smallest such instance. |
| LayoutTheorems.PlanResolvesIff | crates/tapid-linker/src/layout.rs:415-510 | Exact for the returned plan: every import of a name finds its locked child, from every placement, if and only if for each such edge no later turn shadows it or the last one to do so places its child. |
| LayoutTheorems.PlanResolvesUnshadowed | crates/tapid-linker/src/layout.rs:415-510 | In particular a name that is never shadowed late is right everywhere in the returned plan. |
| LayoutTheorems.PlanResolvesBoundOnce | crates/tapid-linker/src/layout.rs:415-510 | A condition on the input: if all edges of a name lead to one instance, every import of it finds that instance in the returned plan, also where a root binds the name otherwise or a workspace link reserves it. |
| LayoutTheorems.PlanIgnoresOrder | crates/tapid-linker/src/layout.rs:310-377 | The plan or the error depends only on the multiset of instances and the sets of roots and edges. |
| LayoutFailure.ResolveIff | crates/tapid-linker/src/layout.rs:417-435 | What lookup means on the tables: it ends in the nearest directory on the way out that is placed, or reserved at the root, and finds nothing if and only if none is. |
| LayoutFailure.ResolvesIff | crates/tapid-linker/src/layout.rs:417-435 | An import finds its locked child if and only if the nearest such directory is a placement of it, and not a workspace name. |
| LayoutFailure.TurnFailsIff | crates/tapid-linker/src/layout.rs:449-491 | Exact failure of a turn, stated on nearest lookup: the parent's own directory holds the name for another child, or a state of the lineage has this child and what lookup from the new directory answers for every lookup name, while some edge of the child does not resolve from there. |
| LayoutFailure.TurnError | crates/tapid-linker/src/layout.rs:449-489 | The error names the own directory in the first case and the new directory in the second. |
| LayoutFailure.TurnSteps | crates/tapid-linker/src/layout.rs:415-499 | Exact effect of a turn, stated on nearest lookup: an edge that resolves is dropped; any other is placed just inside what answers now, and unless the lineage has that state its children join the back of the worklist with it. |
| LayoutFailure.RunFailsIff | crates/tapid-linker/src/layout.rs:415-499 | A run fails if and only if one of its turns meets one of the two conditions, and always with a conflict. |
| LayoutOutcome.ValidateOkIff | crates/tapid-linker/src/layout.rs:305-360 | An input passes validation if and only if the platform is supported, keys are distinct and both ends of every edge are known. |
| LayoutOutcome.ValidateError | crates/tapid-linker/src/layout.rs:305-355 | Otherwise the error names the platform, a key given twice or an unknown end of an edge, in that order of precedence. |
| LayoutOutcome.GraphIsInput | crates/tapid-linker/src/layout.rs:305-373 | The validated graph on the input: link kind of the platform, storage of the instances, lookup names of the edges, and children that are exactly the edges, by name and then by child. |
| LayoutOutcome.StartOkIff | crates/tapid-linker/src/layout.rs:382-396 | The roots can be placed if and only if each is known and not reserved and no name is given two children. |
| LayoutOutcome.StartIsRoots | crates/tapid-linker/src/layout.rs:375-413 | The worklist then starts with one placement for each root name and the children of the roots in order, with empty lineages. |
| LayoutOutcome.PlanFailsIff | crates/tapid-linker/src/layout.rs:299-502 | Exact failure of the planner: the input is invalid, the roots conflict, some turn fails, or some edge starts at an instance that a closed set containing the roots leaves out. |
| LayoutOutcome.EntriesAreInstances | crates/tapid-linker/src/layout.rs:310-345 | A returned plan lists every instance once, in key order, with its own tree and storage path. |
| LayoutOutcome.StepsAreSorted | crates/tapid-linker/src/layout.rs:305-309 | Activation steps stand in the order of their target directories, first difference first, and are symlinks on Unix and junctions on Windows. |
| LayoutSuccess.TurnKeepsOrder | crates/tapid-linker/src/layout.rs:402-499 | Why the own directory of an edge stays free: nothing waits behind an edge of a package nested inside its own, so no turn fills the own directory of a waiting edge. |
| LayoutSuccess.OneChildStuckIff | crates/tapid-linker/src/layout.rs:415-499 | When every parent gives each name to one child, the worklist fails if and only if some turn repeats a state of its lineage with an edge unresolved. |
| LayoutSuccess.AcyclicIsPlannedIff | crates/tapid-linker/src/layout.rs:299-502 | An acyclic input whose parents give each name to one child is planned if and only if it is valid, its roots agree and every edge starts at a reachable instance: hoisting itself never fails. |
| LayoutWitness.ReturnedLayoutCanBeWrong | crates/tapid-linker/src/layout.rs:440-457 | For every choice of three names and five instances in increasing order, the planner returns a plan in which one package imports the wrong version. |
| LayoutWitness.ExampleExists | crates/tapid-linker/src/layout.rs:440-457 | Such a choice exists. |
| LayoutRepair.ShadowCanBeRepaired | crates/tapid-linker/src/layout.rs:440-457 | For every choice of five names and six instances in increasing order, a finished edge is shadowed late and yet every import of its name is right in the returned plan. |
| LayoutRepair.ExampleExists | crates/tapid-linker/src/layout.rs:440-457 | Such a choice exists. |
| LayoutLoops.ScanBases | crates/tapid-linker/src/layout.rs:417-435 | The reverse scan reports whether the nearest holder is the locked child, and otherwise the index of that holder. |
| LayoutLoops.SelectBase | crates/tapid-linker/src/layout.rs:440-448 | The forward loop selects the first free base from the first candidate on. |
| LayoutLoops.PlaceRoots | crates/tapid-linker/src/layout.rs:378-413 | The root loop computes the seeded state, or the first error. |
| LayoutLoops.ProcessFront | crates/tapid-linker/src/layout.rs:415-499 | The loop body is one turn; `LayoutFailure.TurnSteps` and `LayoutFailure.TurnFailsIff` say which. |
| LayoutLoops.DrainWorklist | crates/tapid-linker/src/layout.rs:415-499 | The loop ends on every validated graph and computes the run. |
| LayoutLoops.PlanNamedLayout | crates/tapid-linker/src/layout.rs:299-510 | The whole procedure computes the plan that the theorems are about; `LayoutOutcome.PlanFailsIff` says when there is one. |
| LayoutLoops.ReserveNames | crates/tapid-linker/src/layout.rs:283-295 | Workspace links are accepted if and only if each stands at its own name below the root and no two share a name; then exactly their names are reserved. The error is that of the first link that is out of place or takes a name again. |
| LayoutLoops.PlanWorkspaceLayout | crates/tapid-linker/src/layout.rs:277-297 | The plan with those names reserved; no activation step lands on a workspace link. |
| LayoutPaths.RenderInjective | crates/tapid-linker/src/layout.rs:560-562 | Placement paths can be read back from directory components, scoped names included, so distinct placements are distinct directories. |
| LayoutPaths.RenderText | crates/tapid-linker/src/layout.rs:560-562 | As text, the directory of a placement is that of the package around it, `node_modules/` and the name as it is spelled. |
| LayoutPaths.RenderSafe | crates/tapid-core/src/lib.rs:22-55 | Rendering grammatical package names never yields an empty, `.` or `..` component or one with a separator, so no placement leaves the managed root. |
| LayoutPaths.ResolveChild | scripts/compare-news-site-package-graphs.ts:100-113 | The upward walk over directories returns the nearest one that exists. |
| LayoutPaths.WalkIsResolve | scripts/compare-news-site-package-graphs.ts:100-113 | On the rendered directories of a layout that walk is exactly the nearest-ancestor lookup of the planner's specification. |
| KeyCodec.PlatformComponentInjective | crates/tapid-linker/src/layout.rs:535-554 | Different platform contexts have different storage path components. |
| Publication.VisitKeeps | tools/release/publish.ts:87-104 | A successful visit only appends, leaves the set being visited as it was, and keeps the order distinct, unpublished, publishable and dependency-first. |
| Publication.VisitAllKeeps | tools/release/publish.ts:100-111 | The same for a list of names, all of which end up visited. |
| Publication.VisitSucceeds | tools/release/publish.ts:87-104 | On an acyclic, complete and publishable graph no visit throws. |
| Publication.StackCloses | tools/release/publish.ts:95 | A package met while it is being visited closes a real cycle of unpublished packages. |
| Publication.OrderExcludesCycle | tools/release/publish.ts:95 | A dependency-first order of all unpublished packages leaves no cycle among them. |
| PublicationTheorems.PlanIsExact | tools/release/publish.ts:79-114 | A returned plan names exactly the publishable unpublished packages, each once, every unpublished internal dependency strictly before its dependent. |
| PublicationTheorems.PlanExistsIff | tools/release/publish.ts:79-114 | A plan is returned if and only if the unpublished graph is acyclic and complete with publishable prerequisites, and `tapid` is present and published or publishable. |
| PublicationMeaning.CurrentIff | tools/release/publish.ts:80 | The map by name holds the last manifest of every name. |
| PublicationMeaning.InternalIff | tools/release/publish.ts:56-65 | A name is a prerequisite if and only if it is declared bare, or as a dependency with a null source that is not a development dependency on a known package whose publish list is present without `crates-io`. |
| PublicationMeaning.PlanMeans | tools/release/publish.ts:79-114 | On manifests: a returned plan names exactly the packages whose `name@version` is not in the registry and whose publish list is left out or has `crates-io`, each once, and every declared prerequisite is in the registry or stands before its dependent. |
| PublicationMeaning.PlanExistsMeans | tools/release/publish.ts:79-114 | On manifests: a plan is returned if and only if `tapid` and every declared prerequisite of a package to publish are in the registry or ship, and no package to publish needs itself through declared prerequisites. |
| PublicationMeaning.PlanErrorMeans | tools/release/publish.ts:81-97 | Each error names a package that really is missing, not publishable, or on a cycle. |
| PublicationMeaning.VisitTraverses | tools/release/publish.ts:87-104 | A visit with its two sets is the plain traversal, which looks only at its own path, with repetitions dropped. |
| PublicationMeaning.PlanIsTraversal | tools/release/publish.ts:79-114 | The order is fixed: the plan is the plain traversal from the shipping packages in text order and `tapid` at the end, prerequisites in text order, with repetitions dropped. |
| PublicationOrder.PlanIgnoresOrder | tools/release/publish.ts:74-114 | The plan is deterministic: with unique names, no permutation of the metadata or of any package's dependencies changes the plan or the error. |
| PublicationOrder.PlanOfPackages | tools/release/publish.ts:80-114 | The plan or the error depends only on the packages by name, each with its dependencies in any order. |
| PublicationTheorems.TapidIsLastIff | tools/release/publish.ts:74-114 | An unpublished `tapid` is last in the plan if and only if no other unpublished package depends on it. |
| PublicationWitness.TapidNotAlwaysLast | tools/release/publish.ts:74-114 | With one package that depends on `tapid`, under any other name, a plan is returned and `tapid` is not last in it. |
| PublicationTheorems.VisitResumes | tools/release/publish.ts:87-104 | Visiting with a published prefix of the plan follows the first visit step by step and drops exactly that prefix. |
| PublicationTheorems.PublishAdvances | tools/release/publish.ts:91 | Publishing package names without `@` marks exactly those packages as published. |
| PublicationTheorems.PlanResumes | tools/release/publish.ts:79-123 | Recovery theorem: after any prefix of a plan has been published, planning again succeeds and yields exactly the remaining suffix. |
| PublicationTheorems.CrashLeavesClosed | tools/release/publish.ts:100-123 | After any prefix every internal dependency of a newly published package is published. |
| PublicationLoops.Search.constructor | tools/release/publish.ts:82-84 | The search starts with nothing visited and nothing ordered. |
| PublicationLoops.Search.VisitPackage | tools/release/publish.ts:87-104 | The recursive method updates the three collections exactly as the specified visit does, or throws the same error. |
| PublicationLoops.Search.VisitPackages | tools/release/publish.ts:100-111 | The same for the loops over dependencies and roots. |
| PublicationLoops.PublicationPlan | tools/release/publish.ts:79-114 | The procedure computes the plan that the theorems are about; `PublicationMeaning.PlanMeans` and `PublicationMeaning.PlanIsTraversal` say on manifests what it is. |
| PublicationLoops.PublishPackages | tools/release/publish.ts:117-123 | Against a registry whose lookup may throw and which may fail before or after accepting, the registry ends up with exactly a prefix of the plan; the loop stops at the first package that does not pass and finishes only if all pass. |
| PublicationLoops.MatchesMetadata | tools/release/automation.ts:107-110 | True if and only if exactly one metadata entry has the approved name and it has the approved version. |
| PublicationLoops.CheckApprovedPlan | tools/release/automation.ts:96-111 | Accepts if and only if there are no blockers, the plan is a suffix of the approved packages, and every approved package is the only one of its name in the metadata. |
| PublicationLoops.CrashIsResumable | tools/release/automation.ts:96-111 | After every crash point the new plan is the rest of the first plan, and the approval rule for the first plan accepts it. |
| KeyCodec.PercentDecodeLoop | crates/tapid-lockfile/src/model.rs:74-97 | The index loop decodes what the recursive specification decodes and rejects what it rejects. |
| KeyCodec.DecodeEncode | crates/tapid-lockfile/src/model.rs:15-97 | Decoding an encoded byte string gives it back, for every byte string. |
| CodecMeaning.EncodeShape | crates/tapid-lockfile/src/model.rs:15-24 | Byte by byte: letters, digits, underscore, dot and at sign stand for themselves, anything else becomes a percent sign and two upper-case hexadecimal digits. |
| CodecMeaning.DecodeIff | crates/tapid-lockfile/src/model.rs:74-97 | Decoding gives these bytes if and only if the text spells them, each plain or as a percent sign and two hexadecimal digits of either case. |
| KeyCodec.EncodeHasNoSeparator | crates/tapid-lockfile/src/model.rs:15-24 | Only unreserved characters and `%` survive encoding. |
| KeyCodec.PeersRoundTrip | crates/tapid-lockfile/src/model.rs:26-122 | Every well-formed peer context is read back from its canonical text. |
| KeyCodec.PeersCanonical | crates/tapid-lockfile/src/model.rs:99-122 | Two accepted peer texts with equal contexts are equal. |
| CodecMeaning.PeersText | crates/tapid-lockfile/src/model.rs:26-39 | The text of a peer context: `name=` and `;version=` around the encoded fields, joined with commas. |
| CodecMeaning.PeersAcceptedIff | crates/tapid-lockfile/src/model.rs:99-122 | Exactly the printed forms of well-formed peer contexts are accepted. |
| KeyCodec.PlatformRoundTrip | crates/tapid-lockfile/src/model.rs:41-151 | Every well-formed platform context is read back from its canonical text. |
| KeyCodec.PlatformCanonical | crates/tapid-lockfile/src/model.rs:124-151 | Two accepted platform texts with equal contexts are equal, except for the two spellings of the empty context. |
| KeyCodec.EmptyPlatformSpellings | crates/tapid-lockfile/src/model.rs:124-151 | Both spellings are accepted and mean the empty context. |
| CodecMeaning.PlatformAcceptedIff | crates/tapid-lockfile/src/model.rs:124-151 | Exactly the printed forms of well-formed platform contexts are accepted, and the empty text. |
| PackageKeys.CanonicalPathIdempotent | crates/tapid-lockfile/src/model.rs:242-276 | A canonical workspace path is its own canonical form and holds neither `:` nor the key separator. |
| PackageKeys.CanonicalPathIff | crates/tapid-lockfile/src/model.rs:242-276 | Exactly the accepted workspace paths: relative, without backslash, bar, `:`, control characters or `..`, and with a component that names something. |
| PackageKeys.CanonicalPathIsWalk | crates/tapid-lockfile/src/model.rs:242-276 | Walking the given path passes exactly the components of the canonical one. |
| PackageKeys.WorkspaceRoundTrip | crates/tapid-lockfile/src/model.rs:215-240 | Every well-formed workspace source is read back from its printed form. |
| PackageKeys.SourceRoundTrip | crates/tapid-lockfile/src/model.rs:406-469 | Registry, copied and workspace sources are all read back and never hold the key separator. |
| PackageKeys.KeyRoundTrip | crates/tapid-lockfile/src/model.rs:406-469 | Parsing the printed form of any well-formed key returns the same key. |
| PackageKeys.BuiltKeyRoundTrip | crates/tapid-lockfile/src/model.rs:328-469 | A key built from any source, name, version, peer context and platform is read back from its printed form, and its fields decode to the contexts it was built from. |
| PackageKeys.KeyCanonical | crates/tapid-lockfile/src/model.rs:424-469 | An accepted text is the printed form of the key it denotes, and that key is well formed. |
| CodecMeaning.KeyText | crates/tapid-lockfile/src/model.rs:406-422 | The text of a key: source, `name@version`, `peer=` and `platform=`, joined with bars, a dash for an empty context. |
| CodecMeaning.KeyAcceptedIff | crates/tapid-lockfile/src/model.rs:424-469 | Exactly the printed forms of proper keys are accepted: a known source, a name, a version and two contexts, and a workspace source that names the same package. |
| PackageNames.ValidNameIff | crates/tapid-core/src/lib.rs:22-55 | Exactly the package names: one part, or `@` and two parts around a slash, of at most 214 characters, with no dot or underscore at either end. |
| PackageKeys.PrintKeyInjective | crates/tapid-lockfile/src/model.rs:406-422 | Distinct well-formed keys never print alike. |
| LockfileTheorems.InsertKeeps | crates/tapid-lockfile/src/model.rs:707-790 | A successful batch insert keeps the graph closed: no dangling or self dependency, names or aliases match targets, map keys are package keys, roots exist. |
| LockfileTheorems.ApplyKeeps | crates/tapid-lockfile/src/model.rs:669-878 | Every mutator keeps the graph closed, and a failed one changes nothing. |
| LockfileTheorems.RunKeeps | crates/tapid-lockfile/src/model.rs:669-878 | Over every run of mutators the graph stays closed, bindings covering the non-workspace roots once they are set. |
| LockfileTheorems.NewIsClosed | crates/tapid-lockfile/src/model.rs:650-662 | A new lockfile is closed. |
| LockfileMeaning.InsertSucceedsIff | crates/tapid-lockfile/src/model.rs:707-770 | An insertion succeeds if and only if every element fits, all keys are new and different, and every dependency leads to another member of the document or of the two batches, under its name or alias. |
| LockfileMeaning.InsertMeans | crates/tapid-lockfile/src/model.rs:771-790 | What an insertion changes: both tables gain exactly the batch, each element under its own key; a copied package sets version 10; nothing else changes. |
| LockfileMeaning.DeriveHooksMeans | crates/tapid-lockfile/src/model.rs:669-684 | Hooks are derived if and only if the package is locked and the outputs are authenticated, one for each hook at most, in the order preinstall, install, postinstall; only that package's outputs change, and the version, which rises to 9. |
| LockfileMeaning.UseRootsMeans | crates/tapid-lockfile/src/model.rs:823-843 | Roots are selected if and only if every key parses and is locked; then they are exactly the selected keys, sorted and distinct, and the bindings are empty. |
| LockfileMeaning.BindRootsMeans | crates/tapid-lockfile/src/model.rs:851-878 | Roots are bound if and only if every name and key parses, every key is a root and every root that is no workspace package is bound; then the bindings are the given ones and nothing else changes. |
| LockfileMeaning.ClosedIff | crates/tapid-lockfile/src/model.rs:669-878 | What runs of mutators keep, on the fields: versions 7, 9 or 10, keys that are those of their packages, fitting aliases, no dangling, foreign or self dependency, sorted known roots, and bindings that cover the roots. |
| LockfileMeaning.WritesIff | crates/tapid-lockfile/src/model.rs:922-982 | A document is written if and only if outputs are in order, version 9 is reached for any, version 10 for a copied package and version 7 for bindings and aliases, and from version 6 on a populated document has a root and every registry package says whether its integrity was declared; it is written as it is. |
| LockfileMeaning.RunWritesIff | crates/tapid-lockfile/src/model.rs:649-982 | Over every run from a new lockfile that inserts packages without outputs, the result is written if and only if it has a root or is empty and its registry packages say whether their integrity was declared. |
| LockfileMeaning.ReadsIff | crates/tapid-lockfile/src/model.rs:984-1072 | Exactly the documents that are read, for every version: the digest can be made canonical, the version is 4 to 7, 9 or 10, graph and roots fit, the document has nothing that its version does not record, a root from version 5 on and declared integrity from version 6 on, and no copied package has outputs. Only the digest is rewritten. |
| LockfileMeaning.ReadIsWritten | crates/tapid-lockfile/src/model.rs:922-1072 | The reader and the writer agree: a document of a current version is read if and only if it is closed, would be written and gives no copied package outputs. |
| LockfileTheorems.WrittenIsReadableIff | crates/tapid-lockfile/src/model.rs:922-1072 | On a closed graph that is written, the reader returns an equal lockfile if and only if no copied package carries hook outputs, and rejects it otherwise. |
| LockfileTheorems.GuardedRunKeeps | crates/tapid-lockfile/src/model.rs:669-684 | Runs that derive hooks for registry packages only never give a copied package hooks. |
| LockfileTheorems.EveryWrittenLockfileReads | crates/tapid-lockfile/src/model.rs:649-1072 | Over every such run from a new lockfile, whatever is written is read back as an equal lockfile. |
| LockfileTheorems.UnguardedHooksAreLost | crates/tapid-lockfile/src/model.rs:669-684 | On every closed, writable graph, deriving a hook for a copied package gives a document that is written and rejected. |
| LockfileTheorems.SourceGraphIgnoresHooks | crates/tapid-lockfile/src/model.rs:686-696 | The source graph is the same before and after hooks are derived. |
| LockfileWitness.UnguardedRunIsLost | crates/tapid-lockfile/src/model.rs:1367-1374 | For every copied package without dependencies there is a run from a new lockfile whose document is written and rejected. |
| LockfileWitness.LostHooksExample | crates/tapid-lockfile/src/model.rs:1367-1374 | A concrete run of that kind on the key codec: a vendored archive by its file source and digest, selected as the only root, with one authenticated install output. |
| LockfileObject.CollectPackages | crates/tapid-lockfile/src/model.rs:716-731 | The registry batch is collected if and only if every package is valid and its key is new, in the lockfile and in the batch. |
| LockfileObject.CollectWorkspaces | crates/tapid-lockfile/src/model.rs:732-743 | The same for workspace packages. |
| LockfileObject.Lockfile.constructor | crates/tapid-lockfile/src/model.rs:650-662 | A new lockfile is empty, at the current version. |
| LockfileObject.Lockfile.Insert | crates/tapid-lockfile/src/model.rs:707-790 | Both batches are inserted, as `LockfileMeaning.InsertMeans` says, or nothing changes. |
| LockfileObject.Lockfile.DeriveHooks | crates/tapid-lockfile/src/model.rs:669-684 | The named package gets the outputs and the version is raised, or nothing changes. |
| LockfileObject.Lockfile.UseRoots | crates/tapid-lockfile/src/model.rs:823-843 | Roots become exactly the selected keys, sorted and distinct, and bindings are cleared, or nothing changes. |
| LockfileObject.Lockfile.AllKnown | crates/tapid-lockfile/src/model.rs:834-839 | True if and only if every root parses and is locked. |
| LockfileObject.Lockfile.BindRoots | crates/tapid-lockfile/src/model.rs:851-878 | Bindings become exactly the given ones if those are valid and cover the non-workspace roots, or nothing changes. |
| LockfileEnv.CanonicalDigestIdempotent | crates/tapid-lockfile/src/model.rs:50-55 | Canonicalizing a digest twice changes nothing more. |
| LockfileEnv.EnvIsSound | crates/tapid-lockfile/src/model.rs:1269-1283 | The key codec gives the document what it relies on: the key of every accepted artifact and workspace parses. |
| LockfileEnv.ArtifactAcceptedIff | crates/tapid-lockfile/src/model.rs:1269-1283 | An artifact is accepted if and only if its key is a key and the checks on digests, integrity and URLs pass. |
| LockfileEnv.CanonicalDigestMeans | crates/tapid-lockfile/src/model.rs:50-55 | A digest is `sha256-` and 64 hexadecimal digits of either case, and comes out in lower case. |
| LockfileEnv.CodecReadsClosed | crates/tapid-lockfile/src/model.rs:984-1072 | With the key codec, what the reader accepts is a closed document. |
| LockfileEnv.CodecLockfileReads | crates/tapid-lockfile/src/model.rs:959-1072 | The writer and reader theorem with the key codec in place of the abstract parsers. |
| NpmSelection.ValueMatches | crates/tapid-core/src/platform.rs:67-87 | True if and only if the value is not excluded and is listed when anything is listed. |
| NpmSelection.Matches | crates/tapid-core/src/platform.rs:66-100 | True if and only if os, cpu and, on Linux, libc are all permitted under npm's names. |
| NpmSelection.LeastIsClosed | crates/tapid-lockfile/src/npm_import.rs:320-373 | The intersection of all closed selections is itself closed, hence the least one. |
| NpmSelection.EdgesOfIff | crates/tapid-lockfile/src/npm_import.rs:365-370 | The edges of a package are exactly its dependencies and its peers, each optional when its name is among the optional dependencies or the optional peers. |
| NpmSelection.RootEdgesIff | crates/tapid-lockfile/src/npm_import.rs:329-342 | The entry points are exactly the dependencies of the project and of every workspace member, with their own optional names. |
| NpmSelection.Consider | crates/tapid-lockfile/src/npm_import.rs:343-371 | One popped edge keeps the worklist invariant and makes progress, or exposes an incompatible required target of the least selection. |
| NpmSelection.SelectedPaths | crates/tapid-lockfile/src/npm_import.rs:321-373 | Terminates; succeeds if and only if no required dependency or peer, from the project, a member or a selected package, has an incompatible target, and then returns exactly the least selection closed under compatible dependencies and peers. |
| ArchiveValidation.NormalizedIsPortable | crates/tapid-archive/src/lib.rs:796-824 | An accepted path has no empty, `.` or `..` component and no foreign separator. |
| ArchiveValidation.NormalizedIsWalk | crates/tapid-archive/src/lib.rs:796-824 | Walking the raw path from the root, under either separator, passes exactly the components of the normalized path. |
| ArchiveValidation.NormalizedOkIff | crates/tapid-archive/src/lib.rs:796-824 | A path is accepted if and only if it has no NUL, is relative and on no drive, and has no `..` and at least one component that names something; the error tells which of these fails. |
| ArchiveMeaning.AcceptsIff | crates/tapid-archive/src/lib.rs:152-224 | The archive as a whole: accepted if and only if nothing before the end is broken, at most one comment appears, every entry is a file within its limit or an empty directory under an acceptable path, and all together keep to the number, the total size and distinct spellings up to case; the accepted paths are the normal forms in order. |
| ArchiveMeaning.KindOkIff | crates/tapid-archive/src/lib.rs:755-791 | Exactly the entries of an acceptable kind, a link's target walked from its path without the last component. |
| ArchiveValidation.SymlinkTargetEscapes | crates/tapid-archive/src/lib.rs:831-858 | Counting levels answers exactly whether walking the target from the link's directory leaves the root. |
| ArchiveValidation.EntryValidator.constructor | crates/tapid-archive/src/lib.rs:723-731 | A new validator has accepted nothing. |
| ArchiveValidation.EntryValidator.Push | crates/tapid-archive/src/lib.rs:737-793 | Accepts if and only if the entry is admissible after the accepted ones, and otherwise reports the first check that fails; accepted paths are the normal forms, which stay portable and pairwise distinct without regard to ASCII case, and count and total stay within the limits. |
| ArchiveValidation.EntryValidator.CheckKind | crates/tapid-archive/src/lib.rs:755-791 | Accepts exactly bounded files, empty directories and links that stay inside. |
| ArchiveValidation.BudgetReader.Read | crates/tapid-archive/src/lib.rs:235-252 | Bytes read and budget left add up; a nonempty read fails if and only if the budget is spent. |
| ArchiveValidation.BudgetReader.Serve | crates/tapid-archive/src/lib.rs:170-185 | Whatever reads the parser makes during one advance, they stay within that advance's budget. |
| ArchiveValidation.Take | crates/tapid-archive/src/lib.rs:175-221 | What the loop does with one report: a second comment, a link or an inadmissible entry fails; otherwise the next budget is exactly the payload just added. |
| ArchiveValidation.ValidateArchive | crates/tapid-archive/src/lib.rs:152-224 | For any parser, bytes read never exceed `max_total_size + 65536 * (max_entries + 2)`, and every advance may read the payload of the entry before it and 64 KiB; it succeeds if and only if every report is acceptable in turn (`ArchiveMeaning.AcceptsIff`), and accepted paths are then portable and pairwise distinct. |
| Framing.BigFieldRoundTrip | crates/tapid-archive/src/lib.rs:463-470 | A big-endian length-prefixed field is split off the front of any stream. |
| Framing.LittleFieldRoundTrip | crates/tapid-publish/src/lib.rs:375-378 | The same for little-endian fields. |
| TreeModel.VisitOrder | crates/tapid-archive/src/lib.rs:537-586 | The multiset of collected entries, or failure, does not depend on the order in which directories are listed. |
| TreeModel.VisitDistinct | crates/tapid-archive/src/lib.rs:537-586 | No two collected entries have the same path. |
| TreeRecords.WalkSucceedsIff | crates/tapid-archive/src/lib.rs:537-586 | The walk succeeds if and only if every path of the hashed root leads to a directory, or to a file whose mode fits the manifest. |
| TreeRecords.WalkRecords | crates/tapid-archive/src/lib.rs:537-586 | A successful walk collects exactly one kind of record for every path of the hashed root, with the type and contents found there. |
| TreeRecords.RecordsDetermine | crates/tapid-archive/src/lib.rs:537-586 | The records of a root determine it: names, types, modes and contents. |
| TreeStream.StreamIgnoresOrderIff | crates/tapid-archive/src/lib.rs:442-479 | For every spelling of names: the bytes fed to the hash are the same for all directory orders if and only if no two entries share path text and type byte and differ in contents; a tree that is rejected is rejected in every order. |
| TreeStream.ClashShows | crates/tapid-archive/src/lib.rs:460 | Two entries that tie and differ give two listing orders with different streams. |
| TreeStream.LeadingIsComplete | crates/tapid-archive/src/lib.rs:544 | For every path there is a complete listing order that visits it first. |
| TreeStream.SortKeepsFirst | crates/tapid-archive/src/lib.rs:460 | The stable sort keeps the first of every class of tied entries first. |
| TreeStream.FrameAllInjective | crates/tapid-archive/src/lib.rs:462-477 | The framing is uniquely decodable, entry by entry. |
| TreeMeaning.FrameLayout | crates/tapid-archive/src/lib.rs:462-477 | Where every byte of a frame comes from: eight bytes of length, the path, the type byte, eight bytes of length, the contents. |
| Framing.BigDigit | crates/tapid-archive/src/lib.rs:463 | Length fields are written with the most significant byte first. |
| TreeMeaning.ManifestOkIff | crates/tapid-archive/src/lib.rs:481-529 | Exactly the accepted executable manifests: portable paths of files, in strict text order. |
| TreeMeaning.RetainedMeans | crates/tapid-archive/src/lib.rs:443-446 | With a root entry excluded, exactly the lines whose first component is another stay, in order. |
| TreeMeaning.StreamExistsIff | crates/tapid-archive/src/lib.rs:442-586 | A tree is hashed if and only if its manifest is accepted and every path below a name that is not left out is a directory or a file that is executable exactly when the manifest, if there is one, lists it. |
| TreeMeaning.StreamMeans | crates/tapid-archive/src/lib.rs:442-479 | What is hashed: one row for every such path, with type 1 for directories, 2 for executable files and 0 for others, and one of type 3 for the manifest, in the order of path text and type. |
| TreeTheorems.StreamDeterminesEntries | crates/tapid-archive/src/lib.rs:442-479 | For every spelling of names: equal streams mean equal entries, and equal entries mean equal streams unless they clash. |
| TreeTheorems.StreamDeterminesTree | crates/tapid-archive/src/lib.rs:442-586 | Among trees whose names are spelled as they are, equal streams mean equal trees and equal executable manifests. |
| TreeRearrangement.SameStreamAfter | crates/tapid-archive/src/lib.rs:442-479 | A tree whose entries stand in other places under the same spellings is accepted as well and has the same stream. |
| TreeCollisions.CollidesIff | crates/tapid-archive/src/lib.rs:393-395 | For every spelling of names: a readable tree whose stream does not depend on listing order has another tree with the same stream if and only if some entry that the manifest does not pin can stand in a free place under the same spelling, or two such entries of one spelling and different types can be exchanged. |
| TreeCollisions.UnixCollidesIff | crates/tapid-archive/src/lib.rs:547-551 | On Unix, a readable tree without a backslash in a name has another tree with the same stream if and only if some entry below a root directory is not pinned by the manifest. |
| TreeTheorems.ExcludingIsCutting | crates/tapid-archive/src/lib.rs:400-460 | For a non-reserved root entry and every listing order, hashing with it excluded equals hashing the tree without what is spelled like it and without its manifest lines, the rest of the root listed in the same order; a manifest that is rejected is rejected as a whole. |
| TreeTheorems.CutIsOneIff | crates/tapid-archive/src/lib.rs:397-399 | Exactly the one named entry is left out if and only if no other root name is spelled like it and it is spelled as it is. |
| TreeTheorems.ExcludingIsRemoving | crates/tapid-archive/src/lib.rs:400-460 | With one listing on both sides the two hashes are equal whenever the tree without the entry does not depend on listing order. |
| TreeTheorems.UnixPlainLines | crates/tapid-archive/src/lib.rs:509-517 | On Unix, the lines of an accepted executable manifest are spelled as they are. |
| TreeTheorems.UnixOnlySpelling | crates/tapid-archive/src/lib.rs:401-403 | On Unix text names, an entry name that the guard accepts is the only one of its spelling. |
| TreeTheorems.HashFileContents | crates/tapid-archive/src/lib.rs:418-440 | With short reads at will, hashing succeeds if and only if the file has the recorded length, and then feeds all of it. |
| TreeWitness.BackslashCollides | crates/tapid-archive/src/lib.rs:547-551 | A directory with one file in it shares its stream with another tree. |
| TreeWitness.BackslashShowsOrder | crates/tapid-archive/src/lib.rs:460 | A tree with a file in a directory and another file that spells the same path, with other contents: its stream differs between two directory orders. |
| TapidPack.AppendFile | crates/tapid-publish/src/lib.rs:209-219 | Writing a zero size, the content and then the real size over it yields the framed file. |
| TapidPack.PackFiles | crates/tapid-publish/src/lib.rs:202-222 | The packing loop fails with the first limit exceeded, or yields the encoding and the manifest; the buffer never outgrows the artifact limit, also when it fails. |
| TapidPack.Pack | crates/tapid-publish/src/lib.rs:195-234 | The artifact, or the error, that the theorems are about, never above `max_artifact_bytes` and without underflow. |
| TapidPack.ReadChunks | crates/tapid-publish/src/lib.rs:299-312 | With short reads at will, the hash is fed the whole content and its length is counted. |
| TapidPack.InspectFiles | crates/tapid-publish/src/lib.rs:283-321 | The streaming loop fails exactly where packing does; otherwise it has the same manifest and a running total equal to the packed length. |
| TapidPack.Inspect | crates/tapid-publish/src/lib.rs:276-326 | Inspection succeeds if and only if packing does, with the same manifest, and fails with the same error. |
| TapidPack.PackRoundTrip | crates/tapid-publish/src/lib.rs:202-222 | Decoding an encoding gives back version, paths and contents. |
| TapidPack.PackInjective | crates/tapid-publish/src/lib.rs:195-234 | Sources that pack to the same bytes have the same version and the same files. |
| TapidPack.PackIgnoresOrder | crates/tapid-publish/src/lib.rs:246-269 | The artifact or the error does not depend on the order in which files were collected, also where two files have one path. |
| PackMeaning.PackSucceedsIff | crates/tapid-publish/src/lib.rs:195-269 | A source is packed if and only if it has no more files than allowed, no two casing keys are equal, every content is within its limit and the header and all sizes together are within the artifact limit. |
| PackMeaning.PackFailure | crates/tapid-publish/src/lib.rs:195-269 | Otherwise the checks come in order: number of files, the first colliding path, the header, and then the first file, in path order, at which a limit is exceeded, with the limit it exceeds. |
| PackMeaning.PackedMeans | crates/tapid-publish/src/lib.rs:195-234 | What is packed: the files in path order, a manifest entry for each with its path, size and digest, and exactly as many bytes as the sizes add up to. |
| PackMeaning.HeaderLayout | crates/tapid-publish/src/lib.rs:202-204 | The artifact starts with `TAPID-PACK-1`, a line feed, the length of the version and the version. |
| PackMeaning.FileLayout | crates/tapid-publish/src/lib.rs:205-219 | Each file stands right after the ones before it: length, path, length, content. |
| Framing.LittleDigit | crates/tapid-publish/src/lib.rs:375-378 | Length fields of the artifact are written with the least significant byte first. |
| WindowsQuoting.AddCarets | crates/tapid-cli/src/run.rs:441-453 | The loop puts one caret in front of every metacharacter. |
| WindowsQuoting.Quote | crates/tapid-cli/src/run.rs:413-436 | The double loop computes the quoted form. |
| WindowsQuoting.QuoteRun | crates/tapid-cli/src/run.rs:418-433 | One run of backslashes and the character after it contribute exactly their part of the quoted form. |
| WindowsQuoting.EscapeArgument | crates/tapid-cli/src/run.rs:402-459 | The whole printer, rejecting exactly arguments with CR or LF. |
| WindowsQuoting.BodyRoundTrip | crates/tapid-cli/src/run.rs:413-436 | The quoted form, read by the C argument rules, is the argument. |
| WindowsQuoting.CaretsRoundTrip | crates/tapid-cli/src/run.rs:441-453 | Removing one layer of carets undoes adding one. |
| WindowsQuoting.CaretsShape | crates/tapid-cli/src/run.rs:441-453 | Character by character: a caret in front of blank, `!`, `%`, `^`, `&`, parentheses, `<`, `>`, the bar and the quote, and of nothing else. |
| WindowsQuoting.BodyShape | crates/tapid-cli/src/run.rs:413-436 | Run by run: backslashes stay in front of a plain character, are doubled at the end, and are doubled with one more in front of a quote. |
| WindowsQuoting.PrintedIsPlainIff | crates/tapid-cli/src/run.rs:413-439 | An argument is quoted if and only if it has a blank, a tab of either kind or a quote. |
| WindowsQuoting.EscapeRoundTrip | crates/tapid-cli/src/run.rs:402-459 | For every argument without CR or LF, removing one layer of carets (two when doubled) and reading by the C rules yields exactly that one argument. |
| WindowsQuoting.EscapedIsInert | crates/tapid-cli/src/run.rs:441-453 | After one pass of carets every metacharacter is preceded by its own caret. |
| WindowsQuoting.EscapeIsInertIff | crates/tapid-cli/src/run.rs:402-459 | The printed argument has no bare metacharacter if and only if the argument is not empty; when doubled, the same holds after its first layer of carets is removed. |

## Left out

Planner
- LayoutTheorems.PlanResolvesUnshadowed: one direction only; LayoutRepair.ShadowCanBeRepaired shows why, and LayoutTheorems.PlanResolvesIff is exact.
- LayoutTheorems.PlanResolvesBoundOnce: sufficient and not necessary, because names with several identities often resolve as well; LayoutTheorems.PlanResolvesIff is exact.
- LayoutSuccess.AcyclicIsPlannedIff: for acyclic inputs whose parents give each name to one child; LayoutOutcome.PlanFailsIff covers every input.
- Instance keys are numbers that stand for their rank in the derived order; the planner only compares them.
- Storage paths are given text: their injectivity beyond the platform component is not claimed, since the peer component is lossy (crates/tapid-linker/src/layout.rs:563-574).
- The `root.contains` checks on each target are not repeated in the model; LayoutPaths.RenderSafe shows that a rendered name cannot leave the root.

Publication
- PublicationTheorems.PublishAdvances: assumes package names without `@`, which Cargo's grammar guarantees; the identity text `name@version` would otherwise be ambiguous.
- PublicationLoops.CrashIsResumable: assumes that metadata names are unique, as Cargo's workspaces are; with repeated names the approval rule rejects.
- JavaScript string order is modelled as order by code unit; registry clients, drift reports and dependent version bumps are not modelled.

Lockfile
- Percent-encoded text is given as UTF-8 bytes, one character per byte. Semantic versions, registry URLs and UTF-8 validity are parameters with the facts about characters that the proofs need.
- JSON is the identity on documents. Digests, integrity values, URLs and hook attestations are checked by parameters. Error values are collapsed into "rejected".
- Migration of legacy versions, `validate_replay` and the `add_dependency` builders are not modelled.

npm selection
- NpmSelection.SelectedPaths: assumes that every edge targets a recorded placement, which the import's parser guarantees.
- `selected_context`, receipts and npm-lock parsing are not modelled.

Archive and tree
- Paths split into components as on Unix. Checked additions are unbounded additions compared with the limit: an overflow reports the same error as the limit.
- ArchiveValidation.ValidateArchive: opening the entry iterator is taken to read nothing; the contents of a commit comment and extraction itself are not modelled.
- TreeStream.StreamIgnoresOrderIff: assumes lengths below 2^64, where the length fields would wrap.
- TreeCollisions.CollidesIff: assumes that no two entries of the tree clash; where they do, the stream depends on the listing order (TreeStream.StreamIgnoresOrderIff) and TreeTheorems.StreamDeterminesEntries still holds.
- TreeTheorems.ExcludingIsCutting: assumes that the first component of a manifest line is spelled as it is, which TreeTheorems.UnixPlainLines proves of every accepted manifest on Unix.
- The executable manifest is given as its lines, and modes are those of Unix. File names are texts with a spelling function, which covers names that are not valid Unicode.

Packing
- The source tree is a list of paths and contents that does not change while it is read; the walk, its exclusions and special files are not modelled. SHA-256 and the casing key are parameters.

Windows
- cmd's quote mode, variable expansion and the outer `/S /C` wrapping are not modelled.

Elsewhere in the repository
- Resolution, fetching, the store and its journal, command output, release attestation, policies, registry routing and shims are not modelled.
