/**
 The document's parsers, built from the key codec: what module LockfileModel asks of
 them holds because package keys survive printing and parsing.
 */
module LockfileEnv {
  import opened Wrappers
  import opened Text
  import opened LockfileModel
  import opened LockfileTheorems
  import opened LockfileMeaning
  import Codec = KeyCodec
  import Keys = PackageKeys
  import opened PackageNames

  /** Checks on digests, integrity, URLs and attestations, which other libraries make. */
  datatype Checks = Checks(
    artifact: Artifact -> bool,
    workspaceDigest: string -> bool,
    hook: HookOutput -> bool)

  predicate IsHex(c: char) { '0' <= c <= '9' || 'a' <= c <= 'f' || 'A' <= c <= 'F' }

  const SHA256 := "sha256-"

  /** `ArtifactDigest::from_str` followed by `to_string`. */
  function CanonicalDigest(s: string): Option<string> {
    if SHA256 <= s && |s| == 71 && forall i :: 7 <= i < 71 ==> IsHex(s[i]) then Some(LowerText(s)) else None
  }

  lemma CanonicalDigestIdempotent(s: string)
    requires CanonicalDigest(s).Some?
    ensures CanonicalDigest(CanonicalDigest(s).value) == CanonicalDigest(s)
  {
    var t := LowerText(s);
    assert forall i :: 0 <= i < 7 ==> t[i] == SHA256[i] by { assert s[..7] == SHA256; }
    assert t[..7] == SHA256;
    assert LowerText(t) == t;
  }

  /** A prefix and 64 hexadecimal digits of either case; the digits come out in lower case. */
  lemma CanonicalDigestMeans(s: string)
    ensures CanonicalDigest(s).Some?
            <==> |s| == 71 && s[..7] == "sha256-"
                 && forall i :: 7 <= i < 71 ==> '0' <= s[i] <= '9' || 'a' <= s[i] <= 'f' || 'A' <= s[i] <= 'F'
    ensures CanonicalDigest(s).Some? ==>
              var t := CanonicalDigest(s).value;
              && |t| == 71 && t[..7] == "sha256-"
              && forall i :: 7 <= i < 71 ==> t[i] == if 'A' <= s[i] <= 'F' then s[i] - 'A' + 'a' else s[i]
  {
    if SHA256 <= s { assert s[..7] == SHA256; }
    if CanonicalDigest(s).Some? {
      var t := CanonicalDigest(s).value;
      forall i | 0 <= i < 7 ensures t[i] == SHA256[i] { assert s[i] == SHA256[i]; }
      assert t[..7] == SHA256;
    }
  }

  function ArtifactKeyOf(d: Codec.Domain, a: Artifact): Keys.Key {
    Keys.Key(if d.isOrigin(a.registry) then Keys.Registry(a.registry) else Keys.Copied(a.registry),
             a.name, a.version, a.peer, a.platform)
  }

  /** A workspace package has no peers, and the empty platform in its long spelling. */
  function WorkspaceKeyOf(s: WorkspaceSource): Keys.Key {
    Keys.Key(Keys.Workspace(s.path, s.name, s.version), s.name, s.version, "", Codec.EMPTY_PLATFORM)
  }

  predicate ArtifactAccepted(d: Codec.Domain, checks: Checks, a: Artifact) {
    && (d.isOrigin(a.registry) || d.isCopied(a.registry))
    && ValidName(a.name) && d.isVersion(a.version)
    && Codec.DecodePeers(d, a.peer).Some? && Codec.DecodePlatform(d, a.platform).Some?
    && checks.artifact(a)
  }

  predicate WorkspaceAccepted(d: Codec.Domain, checks: Checks, s: WorkspaceSource, digest: string) {
    Keys.IsPath(s.path) && ValidName(s.name) && d.isVersion(s.version) && checks.workspaceDigest(digest)
  }

  function Facts(k: Option<Keys.Key>): Option<KeyFacts> {
    if k.None? then None else Some(KeyFacts(k.value.name, k.value.source.Workspace?))
  }

  function MakeEnv(d: Codec.Domain, checks: Checks): Env {
    Env((s: string) => Facts(Keys.ParseKey(d, s)),
        (s: string) => ValidName(s),
        (s: string) => d.isOrigin(s),
        (a: Artifact) => ArtifactAccepted(d, checks, a),
        (a: Artifact) => Keys.PrintKey(ArtifactKeyOf(d, a)),
        (s: WorkspaceSource, m: string) => WorkspaceAccepted(d, checks, s, m),
        (s: WorkspaceSource) => Keys.PrintKey(WorkspaceKeyOf(s)),
        (s: string) => CanonicalDigest(s),
        (h: HookOutput) => checks.hook(h))
  }

  lemma ArtifactKeyParses(d: Codec.Domain, checks: Checks, a: Artifact)
    requires Codec.Sound(d) && ArtifactAccepted(d, checks, a)
    ensures Keys.ParseKey(d, Keys.PrintKey(ArtifactKeyOf(d, a))) == Some(ArtifactKeyOf(d, a))
  {
    Keys.KeyRoundTrip(d, ArtifactKeyOf(d, a));
  }

  lemma WorkspaceKeyParses(d: Codec.Domain, checks: Checks, s: WorkspaceSource, m: string)
    requires Codec.Sound(d) && WorkspaceAccepted(d, checks, s, m)
    ensures Keys.ParseKey(d, Keys.PrintKey(WorkspaceKeyOf(s))) == Some(WorkspaceKeyOf(s))
  {
    Codec.EmptyPlatformSpellings(d);
    Keys.KeyRoundTrip(d, WorkspaceKeyOf(s));
  }

  /** The codec gives the document everything it relies on. */
  lemma EnvIsSound(d: Codec.Domain, checks: Checks)
    requires Codec.Sound(d)
    ensures Sound(MakeEnv(d, checks))
  {
    var env := MakeEnv(d, checks);
    forall a | env.artifactOk(a) ensures env.parseKey(env.artifactKey(a)).Some? {
      ArtifactKeyParses(d, checks, a);
    }
    forall s, m | env.workspaceOk(s, m) ensures env.parseKey(env.workspaceKey(s)).Some? {
      WorkspaceKeyParses(d, checks, s, m);
    }
    forall t | env.canonicalDigest(t).Some?
      ensures env.canonicalDigest(env.canonicalDigest(t).value) == env.canonicalDigest(t) {
      CanonicalDigestIdempotent(t);
    }
  }

  /** An artifact is accepted if and only if its key is a key and the other checks pass. */
  lemma ArtifactAcceptedIff(d: Codec.Domain, checks: Checks, a: Artifact)
    requires Codec.Sound(d)
    ensures ArtifactAccepted(d, checks, a)
            <==> Keys.ParseKey(d, Keys.PrintKey(ArtifactKeyOf(d, a))) == Some(ArtifactKeyOf(d, a)) && checks.artifact(a)
  {
    if ArtifactAccepted(d, checks, a) { ArtifactKeyParses(d, checks, a); }
    if Keys.ParseKey(d, Keys.PrintKey(ArtifactKeyOf(d, a))) == Some(ArtifactKeyOf(d, a)) {
      Keys.KeyCanonical(d, Keys.PrintKey(ArtifactKeyOf(d, a)));
    }
  }

  /** The same for a workspace package and its manifest digest. */
  lemma WorkspaceAcceptedIff(d: Codec.Domain, checks: Checks, s: WorkspaceSource, m: string)
    requires Codec.Sound(d)
    ensures WorkspaceAccepted(d, checks, s, m)
            <==> && Keys.ParseKey(d, Keys.PrintKey(WorkspaceKeyOf(s))) == Some(WorkspaceKeyOf(s))
                 && checks.workspaceDigest(m)
  {
    if WorkspaceAccepted(d, checks, s, m) { WorkspaceKeyParses(d, checks, s, m); }
    if Keys.ParseKey(d, Keys.PrintKey(WorkspaceKeyOf(s))) == Some(WorkspaceKeyOf(s)) {
      Keys.KeyCanonical(d, Keys.PrintKey(WorkspaceKeyOf(s)));
    }
  }

  lemma ArtifactFacts(d: Codec.Domain, checks: Checks, a: Artifact)
    requires Codec.Sound(d) && ArtifactAccepted(d, checks, a)
    ensures Facts(Keys.ParseKey(d, Keys.PrintKey(ArtifactKeyOf(d, a)))) == Some(KeyFacts(a.name, false))
  {
    ArtifactKeyParses(d, checks, a);
    FactsOf(ArtifactKeyOf(d, a));
  }

  lemma FactsOf(k: Keys.Key)
    ensures Facts(Some(k)) == Some(KeyFacts(k.name, k.source.Workspace?))
  {
  }

  lemma WorkspaceFacts(d: Codec.Domain, checks: Checks, s: WorkspaceSource, m: string)
    requires Codec.Sound(d) && WorkspaceAccepted(d, checks, s, m)
    ensures Facts(Keys.ParseKey(d, Keys.PrintKey(WorkspaceKeyOf(s)))) == Some(KeyFacts(s.name, true))
  {
    WorkspaceKeyParses(d, checks, s, m);
  }

  /** Workspace keys are told from the others by their text. */
  lemma EnvIsSeparate(d: Codec.Domain, checks: Checks)
    requires Codec.Sound(d)
    ensures Separate(MakeEnv(d, checks))
  {
    var env := MakeEnv(d, checks);
    forall a | env.artifactOk(a) ensures env.parseKey(env.artifactKey(a)) == Some(KeyFacts(a.name, false)) {
      ArtifactFacts(d, checks, a);
    }
    forall s, m | env.workspaceOk(s, m) ensures env.parseKey(env.workspaceKey(s)) == Some(KeyFacts(s.name, true)) {
      WorkspaceFacts(d, checks, s, m);
    }
  }

  /** With the real codec, what the reader accepts is a closed document. */
  lemma CodecReadsClosed(d: Codec.Domain, checks: Checks, doc: Document)
    requires Codec.Sound(d) && FromJson(MakeEnv(d, checks), doc).Some? && doc.version in {7, 9, 10}
    ensures ClosedGraph(MakeEnv(d, checks), FromJson(MakeEnv(d, checks), doc).value)
  {
    var env := MakeEnv(d, checks);
    EnvIsSeparate(d, checks);
    ReadsIff(env, doc);
    var read := FromJson(env, doc).value;
    SameButDigest(env, doc, read);
    CanonicalDigestIdempotent(doc.digest);
    ClosedIff(env, read);
  }

  /**
   With the real codec: over every run from `Lockfile::new` that derives hooks for
   registry packages only, what the writer emits the reader accepts, unchanged.
   */
  lemma CodecLockfileReads(d: Codec.Domain, checks: Checks, digest: string, ops: seq<Operation>)
    requires Codec.Sound(d)
    requires var env := MakeEnv(d, checks); New(env, digest).Some? && GuardedRun(env, New(env, digest).value, ops)
    ensures var env := MakeEnv(d, checks);
            var doc := ApplyAll(env, New(env, digest).value, ops);
            ClosedGraph(env, doc) && (ToJson(env, doc).Some? ==> FromJson(env, ToJson(env, doc).value) == Some(doc))
  {
    EnvIsSound(d, checks);
    EveryWrittenLockfileReads(MakeEnv(d, checks), digest, ops);
  }
}
