/**
 A run from `Lockfile::new` whose document is written and then refused by its own
 reader: one copied package, selected as the only root, with hook outputs derived for it.
 */
module LockfileWitness {
  import opened Wrappers
  import opened Ordering
  import opened LockfileModel
  import opened LockfileTheorems
  import opened LockfileEnv
  import opened Text
  import Codec = KeyCodec
  import Keys = PackageKeys
  import Names = PackageNames

  function LostRun(env: Env, p: LockedPackage, outputs: seq<HookOutput>): seq<Operation> {
    [Operation.Insert([p], []), Operation.UseRoots([KeyOf(env, p)]), Operation.DeriveHooks(KeyOf(env, p), outputs)]
  }

  /** The document after the first two operations. */
  function Single(env: Env, digest: string, p: LockedPackage): Document {
    Document(COPIED_VERSION, digest, [KeyOf(env, p)], map[], map[KeyOf(env, p) := p], map[])
  }

  lemma BatchOfOne(env: Env, p: LockedPackage)
    requires ValidPackage(env, p)
    ensures FreshPackages(env, {}, [p]) && PackageBatch(env, [p]) == map[KeyOf(env, p) := p]
  {
    assert [p][..0] == [] && PackageBatch(env, []) == map[];
    assert FreshPackages(env, {}, []);
  }

  lemma InsertOne(env: Env, doc: Document, p: LockedPackage)
    requires doc.packages == map[] && doc.workspaces == map[] && ValidPackage(env, p) && IsCopied(env, p)
             && p.dependencies == map[]
    ensures InsertGraph(env, doc, [p], []) == Some(doc.(version := COPIED_VERSION, packages := map[KeyOf(env, p) := p]))
  {
    BatchOfOne(env, p);
    assert Known(doc) == {};
    assert WorkspaceBatch(env, []) == map[];
    assert FreshWorkspaces(env, Known(doc) + PackageBatch(env, [p]).Keys, []);
    assert TargetsOk(env, KeyOf(env, p), p.dependencies, p.aliases, {KeyOf(env, p)});
    assert BatchTargetsOk(env, PackageBatch(env, [p]), map[], Known(doc) + PackageBatch(env, [p]).Keys + {});
    var copied := [p];
    assert IsCopied(env, copied[0]);
    assert doc.packages + PackageBatch(env, [p]) == map[KeyOf(env, p) := p];
    assert doc.workspaces + WorkspaceBatch(env, []) == doc.workspaces;
  }

  lemma SelectOne(env: Env, doc: Document, key: string)
    requires key in doc.packages && env.parseKey(key).Some?
    ensures SetRoots(env, doc, [key]) == Some(doc.(roots := [key], bindings := map[]))
  {
    assert Sort(TextLe, [key]) == [key] by { assert [key][1..] == [] && Sort(TextLe, []) == []; }
  }

  lemma SingleIsWritten(env: Env, digest: string, p: LockedPackage)
    requires ValidPackage(env, p) && IsCopied(env, p)
    ensures ToJson(env, Single(env, digest, p)).Some?
  {
  }

  lemma SingleIsReached(env: Env, digest: string, p: LockedPackage)
    requires Sound(env) && New(env, digest).Some?
    requires ValidPackage(env, p) && IsCopied(env, p) && p.dependencies == map[]
    ensures var start := New(env, digest).value;
            Apply(env, Apply(env, start, Operation.Insert([p], [])), Operation.UseRoots([KeyOf(env, p)]))
            == Single(env, start.digest, p)
  {
    var start := New(env, digest).value;
    InsertOne(env, start, p);
    SelectOne(env, Apply(env, start, Operation.Insert([p], [])), KeyOf(env, p));
  }

  lemma ThreeSteps(env: Env, doc: Document, a: Operation, b: Operation, c: Operation)
    ensures ApplyAll(env, doc, [a, b, c]) == Apply(env, Apply(env, Apply(env, doc, a), b), c)
  {
    assert [a, b, c][1..] == [b, c] && [b, c][1..] == [c] && [c][1..] == [];
    var one, two := Apply(env, doc, a), Apply(env, Apply(env, doc, a), b);
    assert ApplyAll(env, two, [c]) == ApplyAll(env, Apply(env, two, c), []);
    assert ApplyAll(env, one, [b, c]) == ApplyAll(env, two, [c]);
  }

  /** For every copied package without dependencies, this run is written and not read. */
  lemma UnguardedRunIsLost(env: Env, digest: string, p: LockedPackage, outputs: seq<HookOutput>)
    requires Sound(env) && New(env, digest).Some? && outputs != [] && HooksOk(env, outputs)
    requires ValidPackage(env, p) && IsCopied(env, p) && p.dependencies == map[]
    ensures var doc := ApplyAll(env, New(env, digest).value, LostRun(env, p, outputs));
            ToJson(env, doc).Some? && FromJson(env, ToJson(env, doc).value).None?
  {
    var start := New(env, digest).value;
    var single := Single(env, start.digest, p);
    NewIsClosed(env, digest);
    ApplyKeeps(env, start, Operation.Insert([p], []));
    ApplyKeeps(env, Apply(env, start, Operation.Insert([p], [])), Operation.UseRoots([KeyOf(env, p)]));
    SingleIsReached(env, digest, p);
    SingleIsWritten(env, start.digest, p);
    UnguardedHooksAreLost(env, single, KeyOf(env, p), outputs);
    ThreeSteps(env, start, Operation.Insert([p], []), Operation.UseRoots([KeyOf(env, p)]),
        Operation.DeriveHooks(KeyOf(env, p), outputs));
  }

  // ----- A concrete run, on texts that the code accepts -----

  const FILE := "file:"

  /** Path of a vendored archive: relative, in plain components. */
  predicate VendoredPath(path: string) {
    && path != "" && path[0] != '/'
    && (forall i :: 0 <= i < |path| ==> path[i] !in {'\\', ':', '|', '#'} && !Keys.IsControl(path[i]))
    && (forall i :: 0 <= i < |Split(path, '/')| ==> Split(path, '/')[i] !in {"", ".", ".."})
  }

  /** A copied source that names a file and the canonical digest of its contents. */
  predicate FileSource(text: string) {
    FILE <= text
    && var halves := SplitLast(text[|FILE|..], '#');
       halves.Some? && VendoredPath(halves.value.0) && CanonicalDigest(halves.value.1) == Some(halves.value.1)
  }

  predicate Ascii(s: string) { forall i :: 0 <= i < |s| ==> s[i] as int < 128 }

  const VERSION := "1.0.0"
  const HTTPS := "https://"
  const ORIGIN := HTTPS + "registry.npmjs.org"

  /** File sources, one version, one registry, and plain platform values and text. */
  const FILES := Codec.Domain(
    (v: string) => v == VERSION, (o: string) => o == ORIGIN, (c: string) => FileSource(c),
    (v: string) => v == "linux", (t: string) => Ascii(t))

  lemma DigestHasNoBar(t: string)
    requires CanonicalDigest(t).Some?
    ensures '|' !in t
  {
    forall i | 0 <= i < |t| ensures t[i] != '|' {
      if i < 7 { assert t[i] == SHA256[i]; } else { assert IsHex(t[i]); }
    }
  }

  lemma FileSourceHasNoBar(c: string)
    requires FileSource(c)
    ensures '|' !in c
  {
    var rest := c[|FILE|..];
    var halves := SplitLast(rest, '#').value;
    SplitLastJoins(rest, '#');
    DigestHasNoBar(halves.1);
    assert c == FILE + (halves.0 + ['#'] + halves.1);
  }

  lemma VersionIsPlain()
    ensures forall i :: 0 <= i < |VERSION| ==> Codec.VersionChar(VERSION[i])
  {
  }

  lemma OriginHasNoBar()
    ensures HTTPS <= ORIGIN && '|' !in ORIGIN
  {
    assert '|' !in HTTPS && '|' !in "registry.npmjs.org";
  }

  lemma LinuxIsPlain()
    ensures "linux" != [] && Ascii("linux") && Codec.Bytes("linux")
  {
  }

  lemma SoundFrom(d: Codec.Domain, version: string, origin: string, value: string)
    requires forall v :: d.isVersion(v) <==> v == version
    requires forall i :: 0 <= i < |version| ==> Codec.VersionChar(version[i])
    requires forall o :: d.isOrigin(o) <==> o == origin
    requires HTTPS <= origin && '|' !in origin
    requires forall c :: d.isCopied(c) ==> FILE <= c && '|' !in c
    requires forall v :: d.isPlatformValue(v) <==> v == value
    requires value != [] && Codec.Bytes(value) && d.isText(value)
    requires forall t :: d.isText(t) <==> Ascii(t)
    ensures Codec.Sound(d)
  {
  }

  lemma FilesAreSound()
    ensures Codec.Sound(FILES)
  {
    forall c | FILES.isCopied(c) ensures FILE <= c && '|' !in c { FileSourceHasNoBar(c); }
    VersionIsPlain();
    OriginHasNoBar();
    LinuxIsPlain();
    SoundFrom(FILES, VERSION, ORIGIN, "linux");
  }

  const DIGEST := SHA256 + seq(64, _ => 'a')
  const INTEGRITY := "sha512-" + seq(86, _ => 'A') + "=="
  const HMAC := "hmac-sha256-"

  /** What `validate_derived_hooks` asks of one output besides its rank. */
  predicate Authenticated(h: HookOutput) {
    && HMAC <= h.attestation && |h.attestation| == |HMAC| + 64
    && (forall i :: |HMAC| <= i < |h.attestation| ==> '0' <= h.attestation[i] <= '9' || 'a' <= h.attestation[i] <= 'f')
    && CanonicalDigest(h.key) == Some(h.key) && CanonicalDigest(h.tree) == Some(h.tree)
  }

  const CHECKS := Checks(
    (a: Artifact) => a.integrity == INTEGRITY && CanonicalDigest(a.unpacked).Some? && CanonicalDigest(a.tree).Some?,
    (t: string) => CanonicalDigest(t).Some?,
    (h: HookOutput) => Authenticated(h))

  const FOLDER := "vendor"
  const ARCHIVE := "tool.tgz"
  const PATH := FOLDER + ['/'] + ARCHIVE

  const COPIED := LockedPackage(
    Artifact(FILE + PATH + "#" + DIGEST, "tool", VERSION, INTEGRITY, None, DIGEST, DIGEST, None, "", ""), [], map[],
        map[])
  const HOOKS := [HookOutput("install", DIGEST, DIGEST, HMAC + seq(64, _ => 'e'))]

  lemma DigestIsCanonical()
    ensures CanonicalDigest(DIGEST) == Some(DIGEST)
  {
    var lower := LowerText(DIGEST);
    assert |DIGEST| == 71 && forall i :: 7 <= i < 71 ==> DIGEST[i] == 'a';
    forall i | 0 <= i < 71 ensures lower[i] == DIGEST[i] {
      if i < 7 { assert DIGEST[i] == SHA256[i]; }
    }
    assert lower == DIGEST;
  }

  predicate PathText(s: string) {
    forall i :: 0 <= i < |s| ==> s[i] !in {'\\', ':', '|', '#', '/'} && !Keys.IsControl(s[i])
  }

  lemma PartsArePlain()
    ensures PathText(FOLDER) && PathText(ARCHIVE) && FOLDER !in {"", ".", ".."} && ARCHIVE !in {"", ".", ".."}
  {
    assert |FOLDER| == 6 && |ARCHIVE| == 8 && |"."| == 1 && |".."| == 2;
  }

  lemma TwoParts(a: string, b: string)
    requires PathText(a) && PathText(b) && a !in {"", ".", ".."} && b !in {"", ".", ".."}
    ensures VendoredPath(a + ['/'] + b)
  {
    var parts := [a, b];
    assert parts[1..] == [b];
    assert Join(parts, '/') == a + ['/'] + b;
    SplitJoin(parts, '/');
  }

  lemma PathIsVendored()
    ensures VendoredPath(PATH)
  {
    PartsArePlain();
    TwoParts(FOLDER, ARCHIVE);
  }

  lemma CopiedIsFileSource()
    ensures FileSource(COPIED.artifact.registry) && COPIED.artifact.registry != ORIGIN
  {
    var text := COPIED.artifact.registry;
    var rest := PATH + ['#'] + DIGEST;
    assert text == FILE + rest && text[|FILE|..] == rest;
    DigestIsCanonical();
    PathIsVendored();
    assert '#' !in DIGEST by {
      assert '#' !in SHA256;
      forall i | 0 <= i < |DIGEST| ensures DIGEST[i] != '#' { if i < 7 { assert DIGEST[i] == SHA256[i]; } }
    }
    SplitLastFinds(PATH, '#', DIGEST);
    assert text[0] == 'f' && ORIGIN[0] == 'h';
  }

  lemma ToolIsName()
    ensures Names.ValidName("tool")
  {
  }

  lemma CopiedIsAccepted()
    ensures ArtifactAccepted(FILES, CHECKS, COPIED.artifact)
  {
    CopiedIsFileSource();
    DigestIsCanonical();
    ToolIsName();
    assert Codec.DecodePeers(FILES, "").Some? && Codec.DecodePlatform(FILES, "").Some?;
  }

  lemma ValidAlone(env: Env, p: LockedPackage)
    requires env.artifactOk(p.artifact) && p.artifact.declared.None? && p.artifact.url.None?
    requires p.hooks == [] && p.dependencies == map[] && p.aliases == map[]
    ensures ValidPackage(env, p)
  {
  }

  lemma CopiedIsValid()
    ensures ValidPackage(MakeEnv(FILES, CHECKS), COPIED) && IsCopied(MakeEnv(FILES, CHECKS), COPIED)
  {
    CopiedIsAccepted();
    CopiedIsFileSource();
    ValidAlone(MakeEnv(FILES, CHECKS), COPIED);
  }

  lemma OutputIsAuthenticated()
    ensures Authenticated(HOOKS[0])
  {
    DigestIsCanonical();
  }

  lemma OneHookOk(env: Env, h: HookOutput)
    requires env.hookOk(h) && HookRank(h.hook).Some?
    ensures HooksOk(env, [h])
  {
  }

  lemma HooksAreAuthentic()
    ensures HooksOk(MakeEnv(FILES, CHECKS), HOOKS)
  {
    OutputIsAuthenticated();
    OneHookOk(MakeEnv(FILES, CHECKS), HOOKS[0]);
    assert HOOKS == [HOOKS[0]];
  }

  /**
   A run of real operations on a vendored archive: a lockfile with this digest, this
   copied package as its only root, and one authenticated install output for it.
   */
  lemma LostHooksExample()
    ensures Codec.Sound(FILES)
    ensures var env := MakeEnv(FILES, CHECKS);
            New(env, DIGEST).Some?
            && var doc := ApplyAll(env, New(env, DIGEST).value, LostRun(env, COPIED, HOOKS));
               ToJson(env, doc).Some? && FromJson(env, ToJson(env, doc).value).None?
  {
    FilesAreSound();
    EnvIsSound(FILES, CHECKS);
    DigestIsCanonical();
    CopiedIsValid();
    HooksAreAuthentic();
    UnguardedRunIsLost(MakeEnv(FILES, CHECKS), DIGEST, COPIED, HOOKS);
  }
}
