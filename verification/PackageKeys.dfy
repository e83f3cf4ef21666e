/**
 Persisted package identities of crates/tapid-lockfile/src/model.rs:
 `LocalWorkspaceSource` and `LockfilePackageKey`, printed and read back.
 */
module PackageKeys {
  import opened Wrappers
  import opened Text
  import opened Components
  import opened PackageNames
  import opened KeyCodec

  // ----- Workspace paths -----

  predicate IsControl(c: char) { c as int < 32 || 127 <= c as int < 160 }

  predicate PathChar(c: char) { c != '\\' && c != '|' && !IsControl(c) }

  predicate PathChars(s: string) { forall i :: 0 <= i < |s| ==> PathChar(s[i]) }

  predicate Normal(parts: seq<string>) {
    forall i :: 0 <= i < |parts| ==> parts[i] != ".." && ':' !in parts[i]
  }

  /** `canonical_workspace_path`. */
  function CanonicalPath(value: string): Option<string> {
    if value == "" || !PathChars(value) || value[0] == '/' then None
    else
      var parts := Kept(Split(value, '/'));
      if parts == [] || !Normal(parts) then None else Some(Join(parts, '/'))
  }

  predicate IsPath(p: string) { CanonicalPath(p) == Some(p) }

  predicate CleanPart(part: string) {
    part != "" && part != "." && '/' !in part && PathChars(part)
  }

  predicate CleanParts(parts: seq<string>) { forall i :: 0 <= i < |parts| ==> CleanPart(parts[i]) }

  lemma KeptParts(value: string)
    requires PathChars(value)
    ensures CleanParts(Kept(Split(value, '/')))
  {
    var all, parts := Split(value, '/'), Kept(Split(value, '/'));
    JoinSplit(value, '/');
    SplitChars(value, '/', PathChar);
    forall i | 0 <= i < |parts| ensures CleanPart(parts[i]) {
      var k :| 0 <= k < |all| && all[k] == parts[i];
      assert forall j :: 0 <= j < |all[k]| ==> PathChar(all[k][j]);
    }
  }

  lemma JoinedPathStays(parts: seq<string>)
    requires parts != [] && Normal(parts) && CleanParts(parts)
    ensures IsPath(Join(parts, '/')) && ':' !in Join(parts, '/')
  {
    var p := Join(parts, '/');
    forall i, j | 0 <= i < |parts| && 0 <= j < |parts[i]| ensures PathChar(parts[i][j]) && parts[i][j] != ':' {
      assert CleanPart(parts[i]);
    }
    JoinAll(parts, '/', PathChar);
    JoinAll(parts, '/', (c: char) => c != ':');
    forall i | 0 <= i < |parts| ensures '/' !in parts[i] && parts[i] != "" && parts[i] != "." {
      assert CleanPart(parts[i]);
    }
    SplitJoin(parts, '/');
    KeptStays(parts);
    assert p[0] == parts[0][0];
  }

  /** Canonical paths are fixed points, and contain no `:`. */
  lemma CanonicalPathIdempotent(value: string)
    requires CanonicalPath(value).Some?
    ensures IsPath(CanonicalPath(value).value)
    ensures ':' !in CanonicalPath(value).value && '|' !in CanonicalPath(value).value
  {
    KeptParts(value);
    JoinedPathStays(Kept(Split(value, '/')));
    assert PathChars(CanonicalPath(value).value);
  }

  /** Exactly the accepted workspace paths. */
  lemma CanonicalPathIff(value: string)
    ensures var parts := Split(value, '/');
            CanonicalPath(value).Some?
            <==> && value != "" && value[0] != '/'
                 && (forall c :: c in value ==>
                       c != '\\' && c != '|' && c != ':' && c >= ' ' && !('\U{7f}' <= c <= '\U{9f}'))
                 && ".." !in parts && HasRealPart(parts)
  {
    var parts := Split(value, '/');
    KeptElements(parts, "..");
    if ".." !in parts { KeptIsEmptyIff(parts); }
    ColonInParts(value);
    CharsIff(value);
  }

  lemma CharsIff(value: string)
    ensures PathChars(value)
            <==> forall c :: c in value ==> c != '\\' && c != '|' && c >= ' ' && !('\U{7f}' <= c <= '\U{9f}')
  {
    forall i | 0 <= i < |value| ensures value[i] in value {}
  }

  /** A colon in a path stands in one of the components that are kept. */
  lemma ColonInParts(value: string)
    ensures ':' in value <==> exists i :: 0 <= i < |Kept(Split(value, '/'))| && ':' in Kept(Split(value, '/'))[i]
  {
    var parts := Split(value, '/');
    JoinSplit(value, '/');
    if ':' !in value {
      SplitChars(value, '/', (c: char) => c != ':');
    } else if forall i :: 0 <= i < |parts| ==> ':' !in parts[i] {
      JoinAll(parts, '/', (c: char) => c != ':');
    } else {
      var i :| 0 <= i < |parts| && ':' in parts[i];
      KeptElements(parts, parts[i]);
    }
  }

  /** Walking the given path from the root passes exactly the components of the canonical one. */
  lemma CanonicalPathIsWalk(value: string)
    requires CanonicalPath(value).Some?
    ensures Land([], Split(value, '/')) == Some(Split(CanonicalPath(value).value, '/'))
  {
    var parts := Split(value, '/');
    KeptElements(parts, "..");
    LandKept([], parts);
    assert [] + Kept(parts) == Kept(parts);
    KeptParts(value);
    forall i | 0 <= i < |Kept(parts)| ensures '/' !in Kept(parts)[i] { assert CleanPart(Kept(parts)[i]); }
    SplitJoin(Kept(parts), '/');
  }

  // ----- Sources -----

  datatype Source =
    | Registry(origin: string)
    | Copied(text: string)
    | Workspace(path: string, name: string, version: string)

  const WORKSPACE := "workspace:"

  function Printed(s: Source): string {
    match s
    case Registry(origin) => origin
    case Copied(text) => text
    case Workspace(path, name, version) => WORKSPACE + path + ":" + name + "@" + version
  }

  /** `LocalWorkspaceSource::from_str`. */
  function ParseWorkspace(d: Domain, value: string): Option<Source> {
    var rest := StripPrefix(value, WORKSPACE);
    if rest.None? || SplitLast(rest.value, ':').None? then None
    else
      var (path, package) := SplitLast(rest.value, ':').value;
      var halves := SplitLast(package, '@');
      if halves.None? || CanonicalPath(path).None? || !ValidName(halves.value.0) || !d.isVersion(halves.value.1)
      then None
      else
        var source := Workspace(CanonicalPath(path).value, halves.value.0, halves.value.1);
        if Printed(source) == value then Some(source) else None
  }

  function ParseSource(d: Domain, value: string): Option<Source> {
    if WORKSPACE <= value then ParseWorkspace(d, value)
    else if "file:" <= value || "git+" <= value then if d.isCopied(value) then Some(Copied(value)) else None
    else if d.isOrigin(value) then Some(Registry(value)) else None
  }

  ghost predicate WellFormedSource(d: Domain, s: Source) {
    match s
    case Registry(origin) => d.isOrigin(origin)
    case Copied(text) => d.isCopied(text)
    case Workspace(path, name, version) => IsPath(path) && ValidName(name) && d.isVersion(version)
  }

  lemma NameHasNo(n: string, c: char)
    requires ValidName(n) && !NameChar(c) && c != '@' && c != '/'
    ensures c !in n
  {
    forall i | 0 <= i < |n| ensures n[i] != c {
      if n[0] == '@' {
        var slash := Find(n, '/');
        if 1 <= i < slash { assert NameChar(n[1..slash][i - 1]); }
        if slash < i { assert NameChar(n[slash + 1..][i - slash - 1]); }
      } else {
        assert NameChar(n[i]);
      }
    }
  }

  lemma VersionHasNo(d: Domain, v: string, c: char)
    requires Sound(d) && d.isVersion(v) && !VersionChar(c)
    ensures c !in v
  {
    forall i | 0 <= i < |v| ensures v[i] != c { assert VersionChar(v[i]); }
  }

  lemma WorkspaceSplits(path: string, name: string, version: string)
    requires ':' !in name && ':' !in version && '@' !in version
    ensures var text := WORKSPACE + path + ":" + name + "@" + version;
            && StripPrefix(text, WORKSPACE) == Some(path + ":" + (name + "@" + version))
            && SplitLast(path + ":" + (name + "@" + version), ':') == Some((path, name + "@" + version))
            && SplitLast(name + "@" + version, '@') == Some((name, version))
  {
    var package := name + "@" + version;
    assert WORKSPACE + path + ":" + name + "@" + version == WORKSPACE + (path + ":" + package);
    StripFinds(WORKSPACE, path + ":" + package);
    SplitLastFinds(path, ':', package);
    SplitLastFinds(name, '@', version);
  }

  /** Round trip for workspace sources. */
  lemma WorkspaceRoundTrip(d: Domain, s: Source)
    requires Sound(d) && WellFormedSource(d, s) && s.Workspace?
    ensures ParseWorkspace(d, Printed(s)) == Some(s) && WORKSPACE <= Printed(s)
  {
    NameHasNo(s.name, ':');
    VersionHasNo(d, s.version, ':');
    VersionHasNo(d, s.version, '@');
    WorkspaceSplits(s.path, s.name, s.version);
    assert Printed(s) == WORKSPACE + (s.path + ":" + (s.name + "@" + s.version));
  }

  lemma RemoteSourceRoundTrip(d: Domain, s: Source)
    requires Sound(d) && WellFormedSource(d, s) && !s.Workspace?
    ensures ParseSource(d, Printed(s)) == Some(s) && '|' !in Printed(s)
  {
    if s.Registry? {
      assert s.origin[0] == "https://"[0];
    } else {
      assert s.text[0] == "file:"[0] || s.text[0] == "git+"[0];
    }
  }

  lemma WorkspaceHasNoBar(d: Domain, s: Source)
    requires Sound(d) && WellFormedSource(d, s) && s.Workspace?
    ensures '|' !in Printed(s)
  {
    CanonicalPathIdempotent(s.path);
    NameHasNo(s.name, '|');
    VersionHasNo(d, s.version, '|');
  }

  lemma SourceRoundTrip(d: Domain, s: Source)
    requires Sound(d) && WellFormedSource(d, s)
    ensures ParseSource(d, Printed(s)) == Some(s) && '|' !in Printed(s)
  {
    if s.Workspace? {
      WorkspaceRoundTrip(d, s);
      WorkspaceHasNoBar(d, s);
    } else {
      RemoteSourceRoundTrip(d, s);
    }
  }

  // ----- Keys -----

  datatype Key = Key(source: Source, name: string, version: string, peer: string, platform: string)

  function OrDash(context: string): string { if context == "" then "-" else context }

  function KeyParts(k: Key): seq<string> {
    [Printed(k.source), k.name + "@" + k.version, "peer=" + OrDash(k.peer), "platform=" + OrDash(k.platform)]
  }

  /** `Display` of a package key. */
  function PrintKey(k: Key): string { Join(KeyParts(k), '|') }

  predicate Blank(c: char) { c == ' ' || 9 <= c as int <= 13 }

  predicate HasBlank(s: string) { exists i :: 0 <= i < |s| && Blank(s[i]) }

  /** `parse_context`: a dash, or nothing, is the empty context. */
  function ParseContext(field: string, prefix: string): Option<string> {
    var value := StripPrefix(field, prefix);
    if value.None? then None
    else if value.value == "" || value.value == "-" then Some("")
    else if HasBlank(value.value) then None
    else value
  }

  /** Whether a workspace source names the same package as the key that carries it. */
  predicate SameIdentity(k: Key) {
    k.source.Workspace? ==> k.source.name == k.name && k.source.version == k.version
  }

  /** `FromStr` of a package key. */
  function ParseKey(d: Domain, value: string): Option<Key> {
    var p := Split(value, '|');
    if |p| != 4 || SplitLast(p[1], '@').None? then None
    else
      var (name, version) := SplitLast(p[1], '@').value;
      var source := ParseSource(d, p[0]);
      var peer, platform := ParseContext(p[2], "peer="), ParseContext(p[3], "platform=");
      if source.None? || peer.None? || platform.None? || !ValidName(name) || !d.isVersion(version) then None
      else
        var key := Key(source.value, name, version, peer.value, platform.value);
        if DecodePeers(d, key.peer).Some? && DecodePlatform(d, key.platform).Some?
           && PrintKey(key) == value && SameIdentity(key) then Some(key)
        else None
  }

  ghost predicate WellFormedKey(d: Domain, k: Key) {
    && WellFormedSource(d, k.source) && SameIdentity(k)
    && ValidName(k.name) && d.isVersion(k.version)
    && DecodePeers(d, k.peer).Some? && DecodePlatform(d, k.platform).Some?
  }

  predicate ContextChar(c: char) { PeerChar(c) || c == ',' }

  lemma {:induction false} JoinStarts(parts: seq<string>, c: char, prefix: string)
    requires parts != [] && prefix <= parts[0]
    ensures prefix <= Join(parts, c)
  {
  }

  lemma AcceptedPeers(d: Domain, s: string)
    requires DecodePeers(d, s).Some? && s != ""
    ensures "name=" <= s && forall i :: 0 <= i < |s| ==> ContextChar(s[i])
  {
    var context := DecodePeers(d, s).value;
    var parts := PrintedPeers(context);
    forall i | 0 <= i < |parts| ensures forall j :: 0 <= j < |parts[i]| ==> ContextChar(parts[i][j]) {
      PrintedPeerShape(context[i]);
    }
    JoinAll(parts, ',', ContextChar);
    assert parts != [];
    PrintedPeerShape(context[0]);
    JoinStarts(parts, ',', "name=");
  }

  lemma EncodedFieldChars(v: Option<string>)
    requires FieldBytes(v)
    ensures forall i :: 0 <= i < |EncodeField(v)| ==> ContextChar(EncodeField(v)[i])
  {
    if v.Some? { EncodeHasNoSeparator(v.value); }
  }

  lemma AcceptedPlatform(d: Domain, s: string)
    requires DecodePlatform(d, s).Some? && s != ""
    ensures "os=" <= s && forall i :: 0 <= i < |s| ==> ContextChar(s[i])
  {
    var p := DecodePlatform(d, s).value;
    EncodedFieldChars(p.os);
    EncodedFieldChars(p.cpu);
    EncodedFieldChars(p.libc);
    PlatformTextChars(EncodeField(p.os), EncodeField(p.cpu), EncodeField(p.libc));
  }

  lemma PlatformTextChars(os: string, cpu: string, libc: string)
    requires forall i :: 0 <= i < |os| ==> ContextChar(os[i])
    requires forall i :: 0 <= i < |cpu| ==> ContextChar(cpu[i])
    requires forall i :: 0 <= i < |libc| ==> ContextChar(libc[i])
    ensures var s := OS + os + CPU + cpu + LIBC + libc;
            "os=" <= s && forall i :: 0 <= i < |s| ==> ContextChar(s[i])
  {
    assert forall i :: 0 <= i < |OS| ==> ContextChar(OS[i]);
    assert forall i :: 0 <= i < |CPU| ==> ContextChar(CPU[i]);
    assert forall i :: 0 <= i < |LIBC| ==> ContextChar(LIBC[i]);
    var a := OS + os + CPU;
    assert forall i :: 0 <= i < |a| ==> ContextChar(a[i]);
    var b := a + cpu + LIBC;
    assert forall i :: 0 <= i < |b| ==> ContextChar(b[i]);
  }

  /** A context field is read back, and cannot break the key apart. */
  lemma ContextRoundTrip(s: string, prefix: string)
    requires s == "" || (s != "-" && forall i :: 0 <= i < |s| ==> ContextChar(s[i]))
    ensures ParseContext(prefix + OrDash(s), prefix) == Some(s) && '|' !in OrDash(s)
  {
    StripFinds(prefix, OrDash(s));
    if s != "" {
      forall i | 0 <= i < |s| ensures !Blank(s[i]) && s[i] != '|' { assert ContextChar(s[i]); }
    }
  }

  lemma PeerFieldRoundTrip(d: Domain, s: string)
    requires DecodePeers(d, s).Some?
    ensures ParseContext("peer=" + OrDash(s), "peer=") == Some(s) && '|' !in "peer=" + OrDash(s)
  {
    if s != "" { AcceptedPeers(d, s); }
    ContextRoundTrip(s, "peer=");
  }

  lemma PlatformFieldRoundTrip(d: Domain, s: string)
    requires DecodePlatform(d, s).Some?
    ensures ParseContext("platform=" + OrDash(s), "platform=") == Some(s) && '|' !in "platform=" + OrDash(s)
  {
    if s != "" { AcceptedPlatform(d, s); }
    ContextRoundTrip(s, "platform=");
  }

  lemma NameVersionRoundTrip(d: Domain, name: string, version: string)
    requires Sound(d) && ValidName(name) && d.isVersion(version)
    ensures SplitLast(name + "@" + version, '@') == Some((name, version)) && '|' !in name + "@" + version
  {
    VersionHasNo(d, version, '@');
    VersionHasNo(d, version, '|');
    NameHasNo(name, '|');
    SplitLastFinds(name, '@', version);
  }

  lemma BarFree(a: string, b: string, c: string, e: string)
    requires '|' !in a && '|' !in b && '|' !in c && '|' !in e
    ensures Split(Join([a, b, c, e], '|'), '|') == [a, b, c, e]
  {
    SplitJoin([a, b, c, e], '|');
  }

  lemma KeySplits(d: Domain, k: Key)
    requires Sound(d) && WellFormedKey(d, k)
    ensures Split(PrintKey(k), '|') == KeyParts(k)
  {
    SourceRoundTrip(d, k.source);
    NameVersionRoundTrip(d, k.name, k.version);
    PeerFieldRoundTrip(d, k.peer);
    PlatformFieldRoundTrip(d, k.platform);
    BarFree(Printed(k.source), k.name + "@" + k.version, "peer=" + OrDash(k.peer), "platform=" + OrDash(k.platform));
  }

  /** Round trip: reading the printed form of any well-formed key returns the same key. */
  lemma KeyRoundTrip(d: Domain, k: Key)
    requires Sound(d) && WellFormedKey(d, k)
    ensures ParseKey(d, PrintKey(k)) == Some(k)
  {
    KeySplits(d, k);
    SourceRoundTrip(d, k.source);
    NameVersionRoundTrip(d, k.name, k.version);
    PeerFieldRoundTrip(d, k.peer);
    PlatformFieldRoundTrip(d, k.platform);
    KeyReads(d, k);
  }

  lemma KeyReads(d: Domain, k: Key)
    requires WellFormedKey(d, k)
    requires Split(PrintKey(k), '|') == KeyParts(k)
    requires ParseSource(d, Printed(k.source)) == Some(k.source)
    requires SplitLast(k.name + "@" + k.version, '@') == Some((k.name, k.version))
    requires ParseContext("peer=" + OrDash(k.peer), "peer=") == Some(k.peer)
    requires ParseContext("platform=" + OrDash(k.platform), "platform=") == Some(k.platform)
    ensures ParseKey(d, PrintKey(k)) == Some(k)
  {
  }

  /** Canonical: a key is read from at most one text, and only well-formed keys are read. */
  lemma KeyCanonical(d: Domain, value: string)
    requires ParseKey(d, value).Some?
    ensures PrintKey(ParseKey(d, value).value) == value && WellFormedKey(d, ParseKey(d, value).value)
  {
    var k := ParseKey(d, value).value;
    if k.source.Workspace? { ParsedWorkspace(d, Split(value, '|')[0]); }
  }

  lemma ParsedWorkspace(d: Domain, value: string)
    requires ParseWorkspace(d, value).Some?
    ensures WellFormedSource(d, ParseWorkspace(d, value).value)
  {
    var (path, package) := SplitLast(StripPrefix(value, WORKSPACE).value, ':').value;
    CanonicalPathIdempotent(path);
  }

  /** Distinct well-formed keys never print alike. */
  lemma PrintKeyInjective(d: Domain, a: Key, b: Key)
    requires Sound(d) && WellFormedKey(d, a) && WellFormedKey(d, b) && PrintKey(a) == PrintKey(b)
    ensures a == b
  {
    KeyRoundTrip(d, a);
    KeyRoundTrip(d, b);
  }

  /** A key built from decoded contexts, as `LockfilePackageKey::with_source` builds it. */
  function BuiltKey(source: Source, name: string, version: string, peers: PeerContext, platform: PlatformContext): Key
    requires BytesOnly(peers) && PlatformBytes(platform)
  {
    Key(source, name, version, PrintPeers(peers), PrintPlatform(platform))
  }

  /**
   The whole round trip: a key built from any source, name, version and contexts is read
   back from its printed form, and its fields decode to the contexts it was built from.
   */
  lemma BuiltKeyRoundTrip(d: Domain, source: Source, name: string, version: string, peers: PeerContext,
                          platform: PlatformContext)
    requires Sound(d) && WellFormedSource(d, source) && ValidName(name) && d.isVersion(version)
    requires source.Workspace? ==> source.name == name && source.version == version
    requires WellFormedPeers(d, peers) && WellFormedPlatform(d, platform)
    ensures BytesOnly(peers) && PlatformBytes(platform)
    ensures var k := BuiltKey(source, name, version, peers, platform);
            && ParseKey(d, PrintKey(k)) == Some(k)
            && DecodePeers(d, k.peer) == Some(peers) && DecodePlatform(d, k.platform) == Some(platform)
  {
    PeersRoundTrip(d, peers);
    PlatformRoundTrip(d, platform);
    KeyRoundTrip(d, BuiltKey(source, name, version, peers, platform));
  }
}
