/**
 The percent-encoded context codecs of crates/tapid-lockfile/src/model.rs.

 Text that is percent-encoded is given as its UTF-8 bytes, one character per byte.
 Parsers of other libraries are parameters: `Domain` says which texts they accept.
 */
module KeyCodec {
  import opened Wrappers
  import opened Ordering
  import opened Text
  import opened PackageNames

  /** Texts accepted, in canonical form, by the semver, URL and UTF-8 libraries. */
  datatype Domain = Domain(
    isVersion: string -> bool,
    isOrigin: string -> bool,
    isCopied: string -> bool,
    isPlatformValue: string -> bool,
    isText: string -> bool)

  predicate Bytes(s: string) { forall i :: 0 <= i < |s| ==> s[i] as int < 256 }

  predicate VersionChar(c: char) { NameChar(c) && c != '_' }

  /** What the codec needs to know about those texts. */
  ghost predicate Sound(d: Domain) {
    && (forall v :: d.isVersion(v) ==> forall i :: 0 <= i < |v| ==> VersionChar(v[i]))
    && (forall o :: d.isOrigin(o) ==> "https://" <= o && '|' !in o)
    && (forall c :: d.isCopied(c) ==> ("file:" <= c || "git+" <= c) && '|' !in c)
    && (forall v :: d.isPlatformValue(v) ==> v != [] && Bytes(v) && d.isText(v))
    && (forall t :: (forall i :: 0 <= i < |t| ==> t[i] as int < 128) ==> d.isText(t))
  }

  // ----- Percent encoding -----

  predicate Unreserved(c: char) {
    'a' <= c <= 'z' || 'A' <= c <= 'Z' || '0' <= c <= '9' || c == '_' || c == '.' || c == '@'
  }

  function HexDigit(n: nat): char
    requires n < 16
  {
    if n < 10 then ('0' as int + n) as char else ('A' as int + n - 10) as char
  }

  /** `char::to_digit(16)`: both cases are read. */
  function DigitValue(c: char): (v: Option<nat>)
    ensures v.Some? ==> v.value < 16
  {
    if '0' <= c <= '9' then Some(c as int - '0' as int)
    else if 'a' <= c <= 'f' then Some(c as int - 'a' as int + 10)
    else if 'A' <= c <= 'F' then Some(c as int - 'A' as int + 10)
    else None
  }

  function EncodeByte(c: char): string
    requires c as int < 256
  {
    if Unreserved(c) then [c] else ['%', HexDigit(c as int / 16), HexDigit(c as int % 16)]
  }

  function Encode(s: string): string
    requires Bytes(s)
  {
    if s == [] then [] else EncodeByte(s[0]) + Encode(s[1..])
  }

  function Prepend(front: string, rest: Option<string>): Option<string> {
    if rest.None? then None else Some(front + rest.value)
  }

  /** Bytes of the decoded text, before they are checked to be UTF-8. */
  function DecodeBytes(s: string): Option<string> {
    if s == [] then Some([])
    else if s[0] == '%' then
      if |s| < 3 || DigitValue(s[1]).None? || DigitValue(s[2]).None? then None
      else Prepend([(DigitValue(s[1]).value * 16 + DigitValue(s[2]).value) as char], DecodeBytes(s[3..]))
    else Prepend([s[0]], DecodeBytes(s[1..]))
  }

  lemma PrependTwice(a: string, b: string, rest: Option<string>)
    ensures Prepend(a, Prepend(b, rest)) == Prepend(a + b, rest)
  {
    if rest.Some? { assert a + (b + rest.value) == a + b + rest.value; }
  }

  function PercentDecode(d: Domain, s: string): Option<string> {
    var bytes := DecodeBytes(s);
    if bytes.Some? && d.isText(bytes.value) then bytes else None
  }

  /** `percent_decode`: the index loop of the source. */
  method PercentDecodeLoop(d: Domain, value: string) returns (r: Option<string>)
    ensures r == PercentDecode(d, value)
  {
    var decoded: string, index := "", 0;
    assert value[0..] == value;
    assert DecodeBytes(value).Some? ==> "" + DecodeBytes(value).value == DecodeBytes(value).value;
    while index < |value|
      invariant 0 <= index <= |value|
      invariant DecodeBytes(value) == Prepend(decoded, DecodeBytes(value[index..]))
    {
      ghost var tail := value[index..];
      if value[index] == '%' {
        if index + 2 >= |value| { return None; }
        var high, low := DigitValue(value[index + 1]), DigitValue(value[index + 2]);
        if high.None? || low.None? { return None; }
        assert tail[3..] == value[index + 3..];
        PrependTwice(decoded, [(high.value * 16 + low.value) as char], DecodeBytes(tail[3..]));
        decoded := decoded + [(high.value * 16 + low.value) as char];
        index := index + 3;
      } else {
        assert tail[1..] == value[index + 1..];
        PrependTwice(decoded, [value[index]], DecodeBytes(tail[1..]));
        decoded := decoded + [value[index]];
        index := index + 1;
      }
    }
    assert decoded + "" == decoded;
    return if d.isText(decoded) then Some(decoded) else None;
  }

  lemma HexRoundTrip(n: nat)
    requires n < 16
    ensures DigitValue(HexDigit(n)) == Some(n)
  {
  }

  /** `percent_decode(encode(s)) = s` for every byte string. */
  lemma {:induction false} DecodeEncode(s: string)
    requires Bytes(s)
    ensures DecodeBytes(Encode(s)) == Some(s)
  {
    if s != [] {
      DecodeEncode(s[1..]);
      var e, n := EncodeByte(s[0]), s[0] as int;
      assert s == [s[0]] + s[1..];
      if Unreserved(s[0]) {
        assert (e + Encode(s[1..]))[1..] == Encode(s[1..]);
      } else {
        HexRoundTrip(n / 16);
        HexRoundTrip(n % 16);
        assert (e + Encode(s[1..]))[3..] == Encode(s[1..]);
      }
    }
  }

  /** The characters that survive encoding: no separator of any codec is among them. */
  predicate EncodedChar(c: char) { Unreserved(c) || c == '%' }

  predicate EncodedText(s: string) { forall i :: 0 <= i < |s| ==> EncodedChar(s[i]) }

  lemma {:induction false} EncodeHasNoSeparator(s: string)
    requires Bytes(s)
    ensures EncodedText(Encode(s))
    ensures s != [] <==> Encode(s) != []
  {
    if s != [] { EncodeHasNoSeparator(s[1..]); }
  }

  lemma NameIsBytes(n: string)
    requires ValidName(n)
    ensures forall i :: 0 <= i < |n| ==> n[i] as int < 128
  {
    if n[0] == '@' {
      var slash := Find(n, '/');
      forall i | 0 <= i < |n| ensures n[i] as int < 128 {
        if 1 <= i < slash { assert NameChar(n[1..slash][i - 1]); }
        if slash < i { assert NameChar(n[slash + 1..][i - slash - 1]); }
      }
    } else {
      forall i | 0 <= i < |n| ensures n[i] as int < 128 { assert NameChar(n[i]); }
    }
  }

  /** What decoding gives back for a name or a version. */
  lemma AsciiRoundTrip(d: Domain, s: string)
    requires Sound(d) && forall i :: 0 <= i < |s| ==> s[i] as int < 128
    ensures Bytes(s) && PercentDecode(d, Encode(s)) == Some(s)
  {
    DecodeEncode(s);
  }

  // ----- Peer contexts -----

  datatype Peer = Peer(name: string, version: string)

  /** A `PeerContext` map: entries by strictly increasing name. */
  type PeerContext = seq<Peer>

  ghost predicate WellFormedPeer(d: Domain, p: Peer) { ValidName(p.name) && d.isVersion(p.version) }

  ghost predicate WellFormedPeers(d: Domain, context: PeerContext) {
    && (forall i :: 0 <= i < |context| ==> WellFormedPeer(d, context[i]))
    && Increasing(context)
  }

  ghost predicate Increasing(context: PeerContext) {
    forall i, j :: 0 <= i < j < |context| ==>
      TextLe(context[i].name, context[j].name) && context[i].name != context[j].name
  }

  lemma PeerIsAscii(d: Domain, p: Peer)
    requires Sound(d) && WellFormedPeer(d, p)
    ensures Bytes(p.name) && Bytes(p.version)
    ensures PercentDecode(d, Encode(p.name)) == Some(p.name)
    ensures PercentDecode(d, Encode(p.version)) == Some(p.version)
  {
    NameIsBytes(p.name);
    forall i | 0 <= i < |p.version| ensures p.version[i] as int < 128 { assert VersionChar(p.version[i]); }
    AsciiRoundTrip(d, p.name);
    AsciiRoundTrip(d, p.version);
  }

  const NAME := "name="
  const VERSION := ";version="

  function PrintPeer(p: Peer): string
    requires Bytes(p.name) && Bytes(p.version)
  {
    NAME + Encode(p.name) + VERSION + Encode(p.version)
  }

  predicate BytesOnly(context: PeerContext) {
    forall i :: 0 <= i < |context| ==> Bytes(context[i].name) && Bytes(context[i].version)
  }

  function PrintedPeers(context: PeerContext): (r: seq<string>)
    requires BytesOnly(context)
    ensures |r| == |context| && forall i :: 0 <= i < |r| ==> r[i] == PrintPeer(context[i])
  {
    seq(|context|, i requires 0 <= i < |context| => PrintPeer(context[i]))
  }

  /** `canonical_peer_context`. */
  function PrintPeers(context: PeerContext): string
    requires BytesOnly(context)
  {
    Join(PrintedPeers(context), ',')
  }

  /** `BTreeMap::insert`: keeps the order, and replaces the entry of the same name. */
  function With(context: PeerContext, p: Peer): PeerContext {
    if context == [] then [p]
    else if context[0].name == p.name then [p] + context[1..]
    else if TextLe(p.name, context[0].name) then [p] + context
    else [context[0]] + With(context[1..], p)
  }

  function DecodePeer(d: Domain, item: string): Option<Peer> {
    var halves := SplitOnce(item, VERSION);
    if halves.None? || StripPrefix(halves.value.0, NAME).None? then None
    else
      var name := PercentDecode(d, StripPrefix(halves.value.0, NAME).value);
      var version := PercentDecode(d, halves.value.1);
      if name.None? || version.None? || !ValidName(name.value) || !d.isVersion(version.value) then None
      else Some(Peer(name.value, version.value))
  }

  function DecodeItems(d: Domain, items: seq<string>, context: PeerContext): Option<PeerContext> {
    if items == [] then Some(context)
    else
      var p := DecodePeer(d, items[0]);
      if p.None? then None else DecodeItems(d, items[1..], With(context, p.value))
  }

  /** `decode_peer_context`: decodes and then insists on the canonical spelling. */
  function DecodePeers(d: Domain, value: string): Option<PeerContext> {
    if value == "" then Some([])
    else
      var context := DecodeItems(d, Split(value, ','), []);
      if context.Some? && BytesOnly(context.value) && PrintPeers(context.value) == value then context else None
  }

  predicate PeerChar(c: char) { EncodedChar(c) || c == '=' || c == ';' }

  lemma PrintedPeerShape(p: Peer)
    requires Bytes(p.name) && Bytes(p.version)
    ensures forall i :: 0 <= i < |PrintPeer(p)| ==> PeerChar(PrintPeer(p)[i])
    ensures "name=" <= PrintPeer(p)
  {
    EncodeHasNoSeparator(p.name);
    EncodeHasNoSeparator(p.version);
    forall i | 0 <= i < |NAME| ensures PeerChar(NAME[i]) {}
    forall i | 0 <= i < |VERSION| ensures PeerChar(VERSION[i]) {}
  }

  lemma PeerSplits(left: string, right: string)
    requires EncodedText(left)
    ensures var item := NAME + left + VERSION + right;
            SplitOnce(item, VERSION) == Some((NAME + left, right)) && StripPrefix(NAME + left, NAME) == Some(left)
  {
    EncodedHasNo(left, ';');
    assert ';' !in NAME + left;
    SplitOnceFinds(NAME + left, VERSION, right);
    StripFinds(NAME, left);
  }

  lemma PeerRoundTrip(d: Domain, p: Peer)
    requires Sound(d) && WellFormedPeer(d, p)
    ensures Bytes(p.name) && Bytes(p.version) && DecodePeer(d, PrintPeer(p)) == Some(p)
  {
    PeerIsAscii(d, p);
    EncodeHasNoSeparator(p.name);
    PeerSplits(Encode(p.name), Encode(p.version));
  }

  /** Entries inserted in increasing order are appended. */
  lemma {:induction false} WithAppends(context: PeerContext, p: Peer)
    requires forall i :: 0 <= i < |context| ==> TextLe(context[i].name, p.name) && context[i].name != p.name
    ensures With(context, p) == context + [p]
  {
    if context != [] {
      TextLeTotal(context[0].name, p.name);
      WithAppends(context[1..], p);
    }
  }

  lemma NextAppends(context: PeerContext, k: nat)
    requires Increasing(context) && k < |context|
    ensures With(context[..k], context[k]) == context[..k + 1]
  {
    WithAppends(context[..k], context[k]);
  }

  lemma {:induction false} ItemsRoundTrip(d: Domain, context: PeerContext, k: nat)
    requires Sound(d) && WellFormedPeers(d, context) && k <= |context| && BytesOnly(context)
    ensures DecodeItems(d, PrintedPeers(context)[k..], context[..k]) == Some(context)
    decreases |context| - k
  {
    var items := PrintedPeers(context)[k..];
    if k == |context| {
      assert context[..k] == context;
    } else {
      PeerRoundTrip(d, context[k]);
      NextAppends(context, k);
      assert items[0] == PrintedPeers(context)[k];
      assert items[1..] == PrintedPeers(context)[k + 1..];
      ItemsRoundTrip(d, context, k + 1);
    }
  }

  lemma PeersAreBytes(d: Domain, context: PeerContext)
    requires Sound(d) && WellFormedPeers(d, context)
    ensures BytesOnly(context)
  {
    forall i | 0 <= i < |context| ensures Bytes(context[i].name) && Bytes(context[i].version) {
      PeerIsAscii(d, context[i]);
    }
  }

  lemma PrintedPeersSplit(context: PeerContext)
    requires BytesOnly(context) && context != []
    ensures PrintPeers(context) != "" && Split(PrintPeers(context), ',') == PrintedPeers(context)
  {
    var parts := PrintedPeers(context);
    forall i | 0 <= i < |parts| ensures ',' !in parts[i] { PrintedPeerShape(context[i]); }
    SplitJoin(parts, ',');
    PrintedPeerShape(context[0]);
    assert NAME <= parts[0];
  }

  /** Round trip: every well-formed peer context is read back from its printed form. */
  lemma PeersRoundTrip(d: Domain, context: PeerContext)
    requires Sound(d) && WellFormedPeers(d, context)
    ensures BytesOnly(context) && DecodePeers(d, PrintPeers(context)) == Some(context)
  {
    PeersAreBytes(d, context);
    if context != [] {
      PrintedPeersSplit(context);
      ItemsRoundTrip(d, context, 0);
      assert PrintedPeers(context)[0..] == PrintedPeers(context) && context[..0] == [];
    }
  }

  /** Canonical spelling: an accepted peer context has exactly one accepted text. */
  lemma PeersCanonical(d: Domain, a: string, b: string)
    requires DecodePeers(d, a).Some? && DecodePeers(d, a) == DecodePeers(d, b)
    ensures a == b
  {
    assert PrintPeers([]) == "";
  }

  // ----- Platform contexts -----

  datatype PlatformContext = PlatformContext(os: Option<string>, cpu: Option<string>, libc: Option<string>)

  ghost predicate WellFormedField(d: Domain, v: Option<string>) { v.Some? ==> d.isPlatformValue(v.value) }

  ghost predicate WellFormedPlatform(d: Domain, p: PlatformContext) {
    WellFormedField(d, p.os) && WellFormedField(d, p.cpu) && WellFormedField(d, p.libc)
  }

  predicate FieldBytes(v: Option<string>) { v.Some? ==> Bytes(v.value) }

  function EncodeField(v: Option<string>): string
    requires FieldBytes(v)
  {
    if v.None? then "" else Encode(v.value)
  }

  const OS := "os="
  const CPU := ";cpu="
  const LIBC := ";libc="

  predicate PlatformBytes(p: PlatformContext) { FieldBytes(p.os) && FieldBytes(p.cpu) && FieldBytes(p.libc) }

  /** `canonical_platform_context`. */
  function PrintPlatform(p: PlatformContext): string
    requires PlatformBytes(p)
  {
    OS + EncodeField(p.os) + CPU + EncodeField(p.cpu) + LIBC + EncodeField(p.libc)
  }

  function DecodeField(d: Domain, field: string): Option<Option<string>> {
    if field == "" then Some(None)
    else
      var v := PercentDecode(d, field);
      if v.None? then None else Some(v)
  }

  function DecodeFields(d: Domain, os: string, cpu: string, libc: string): Option<PlatformContext> {
    var a, b, c := DecodeField(d, os), DecodeField(d, cpu), DecodeField(d, libc);
    if a.None? || b.None? || c.None? then None else Some(PlatformContext(a.value, b.value, c.value))
  }

  predicate Accepts(d: Domain, v: Option<string>) { v.Some? ==> d.isPlatformValue(v.value) }

  /** `decode_platform_context`. */
  function DecodePlatform(d: Domain, value: string): Option<PlatformContext> {
    if value == "" then Some(PlatformContext(None, None, None))
    else
      var body := StripPrefix(value, OS);
      if body.None? || SplitOnce(body.value, CPU).None? then None
      else
        var (os, rest) := SplitOnce(body.value, CPU).value;
        var tail := SplitOnce(rest, LIBC);
        if tail.None? then None
        else
          var p := DecodeFields(d, os, tail.value.0, tail.value.1);
          if p.None? || !Accepts(d, p.value.os) || !Accepts(d, p.value.cpu) || !Accepts(d, p.value.libc) then None
          else if PlatformBytes(p.value) && PrintPlatform(p.value) == value then p else None
  }

  lemma FieldRoundTrip(d: Domain, v: Option<string>)
    requires Sound(d) && WellFormedField(d, v)
    ensures FieldBytes(v) && DecodeField(d, EncodeField(v)) == Some(v)
    ensures EncodedText(EncodeField(v))
  {
    if v.Some? {
      DecodeEncode(v.value);
      EncodeHasNoSeparator(v.value);
    }
  }

  lemma EncodedHasNo(s: string, c: char)
    requires EncodedText(s) && !EncodedChar(c)
    ensures c !in s
  {
    forall i | 0 <= i < |s| ensures s[i] != c { assert EncodedChar(s[i]); }
  }

  lemma PrintedFields(prefix: string, os: string, s: string, cpu: string, t: string, libc: string)
    requires EncodedText(os) && EncodedText(cpu)
    requires s != [] && t != [] && !EncodedChar(s[0]) && !EncodedChar(t[0])
    ensures var rest := cpu + t + libc;
            && StripPrefix(prefix + os + s + cpu + t + libc, prefix) == Some(os + s + rest)
            && SplitOnce(os + s + rest, s) == Some((os, rest))
            && SplitOnce(rest, t) == Some((cpu, libc))
  {
    EncodedHasNo(os, s[0]);
    EncodedHasNo(cpu, t[0]);
    ThreeFields(prefix, os, s, cpu, t, libc);
  }

  /** Round trip: every well-formed platform context is read back from its printed form. */
  lemma PlatformRoundTrip(d: Domain, p: PlatformContext)
    requires Sound(d) && WellFormedPlatform(d, p)
    ensures PlatformBytes(p) && DecodePlatform(d, PrintPlatform(p)) == Some(p)
  {
    FieldRoundTrip(d, p.os);
    FieldRoundTrip(d, p.cpu);
    FieldRoundTrip(d, p.libc);
    PrintedFields(OS, EncodeField(p.os), CPU, EncodeField(p.cpu), LIBC, EncodeField(p.libc));
    DecodesPrinted(d, p);
  }

  lemma DecodesPrinted(d: Domain, p: PlatformContext)
    requires PlatformBytes(p) && WellFormedPlatform(d, p)
    requires DecodeFields(d, EncodeField(p.os), EncodeField(p.cpu), EncodeField(p.libc)) == Some(p)
    requires var rest := EncodeField(p.cpu) + LIBC + EncodeField(p.libc);
             && StripPrefix(PrintPlatform(p), OS) == Some(EncodeField(p.os) + CPU + rest)
             && SplitOnce(EncodeField(p.os) + CPU + rest, CPU) == Some((EncodeField(p.os), rest))
             && SplitOnce(rest, LIBC) == Some((EncodeField(p.cpu), EncodeField(p.libc)))
    ensures DecodePlatform(d, PrintPlatform(p)) == Some(p)
  {
  }

  const EMPTY_PLATFORM := "os=;cpu=;libc="

  /**
   Canonical spelling: two accepted texts of one platform context are equal, except
   for exactly the two spellings of the empty one.
   */
  lemma PlatformCanonical(d: Domain, a: string, b: string)
    requires DecodePlatform(d, a).Some? && DecodePlatform(d, a) == DecodePlatform(d, b)
    ensures a == b || (a == "" && b == EMPTY_PLATFORM) || (a == EMPTY_PLATFORM && b == "")
  {
    EmptyPlatform();
  }

  lemma EmptyPlatform()
    ensures PrintPlatform(PlatformContext(None, None, None)) == EMPTY_PLATFORM
  {
  }

  /** Both spellings of the empty platform context are accepted. */
  lemma EmptyPlatformSpellings(d: Domain)
    requires Sound(d)
    ensures DecodePlatform(d, "") == DecodePlatform(d, EMPTY_PLATFORM) == Some(PlatformContext(None, None, None))
  {
    EmptyPlatform();
    PlatformRoundTrip(d, PlatformContext(None, None, None));
  }

  // ----- The platform component of a storage path -----

  /** `platform_component_key` of crates/tapid-linker/src/layout.rs. */
  function PlatformComponent(p: PlatformContext): string
    requires PlatformBytes(p)
  {
    "os-" + EncodeField(p.os) + "--cpu-" + EncodeField(p.cpu) + "--libc-" + EncodeField(p.libc)
  }

  lemma FieldInjective(d: Domain, a: Option<string>, b: Option<string>)
    requires Sound(d) && WellFormedField(d, a) && WellFormedField(d, b)
    ensures FieldBytes(a) && FieldBytes(b) && (EncodeField(a) == EncodeField(b) ==> a == b)
  {
    FieldRoundTrip(d, a);
    FieldRoundTrip(d, b);
  }

  /** Distinct platform contexts never share a storage directory: `-` does not survive encoding. */
  lemma PlatformComponentInjective(d: Domain, p: PlatformContext, q: PlatformContext)
    requires Sound(d) && WellFormedPlatform(d, p) && WellFormedPlatform(d, q)
    ensures PlatformBytes(p) && PlatformBytes(q)
    ensures PlatformComponent(p) == PlatformComponent(q) ==> p == q
  {
    FieldInjective(d, p.os, q.os);
    FieldInjective(d, p.cpu, q.cpu);
    FieldInjective(d, p.libc, q.libc);
    if PlatformComponent(p) == PlatformComponent(q) {
      ComponentSplits(d, p);
      ComponentSplits(d, q);
    }
  }

  lemma ComponentSplits(d: Domain, p: PlatformContext)
    requires Sound(d) && WellFormedPlatform(d, p)
    ensures PlatformBytes(p)
    ensures var rest := EncodeField(p.cpu) + "--libc-" + EncodeField(p.libc);
            && StripPrefix(PlatformComponent(p), "os-") == Some(EncodeField(p.os) + "--cpu-" + rest)
            && SplitOnce(EncodeField(p.os) + "--cpu-" + rest, "--cpu-") == Some((EncodeField(p.os), rest))
            && SplitOnce(rest, "--libc-") == Some((EncodeField(p.cpu), EncodeField(p.libc)))
  {
    FieldRoundTrip(d, p.os);
    FieldRoundTrip(d, p.cpu);
    FieldRoundTrip(d, p.libc);
    PrintedFields("os-", EncodeField(p.os), "--cpu-", EncodeField(p.cpu), "--libc-", EncodeField(p.libc));
  }
}
