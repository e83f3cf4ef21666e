/**
 The key codec's texts, character by character, and exactly which texts are accepted: the
 printed forms of well-formed values and no others.
 */
module CodecMeaning {
  import opened Wrappers
  import opened Ordering
  import opened Text
  import opened PackageNames
  import opened KeyCodec
  import Keys = PackageKeys

  // ----- Percent encoding -----

  const UPPER := "0123456789ABCDEF"
  const LOWER := "0123456789abcdef"

  /** Letters, digits, underscore, dot and at sign stand for themselves. */
  ghost predicate Stays(c: char) {
    'a' <= c <= 'z' || 'A' <= c <= 'Z' || '0' <= c <= '9' || c == '_' || c == '.' || c == '@'
  }

  lemma DigitIsUpper(n: nat)
    requires n < 16
    ensures HexDigit(n) == UPPER[n]
  {
    assert |UPPER| == 16;
    assert UPPER[0] == '0' && UPPER[1] == '1' && UPPER[2] == '2' && UPPER[3] == '3' && UPPER[4] == '4';
    assert UPPER[5] == '5' && UPPER[6] == '6' && UPPER[7] == '7' && UPPER[8] == '8' && UPPER[9] == '9';
    assert UPPER[10] == 'A' && UPPER[11] == 'B' && UPPER[12] == 'C' && UPPER[13] == 'D' && UPPER[14] == 'E';
    assert UPPER[15] == 'F';
  }

  /** Byte by byte: itself, or a percent sign and two upper-case hexadecimal digits. */
  lemma {:induction false} EncodeShape(a: string, b: string, c: char)
    requires Bytes(a) && Bytes(b) && c as int < 256
    ensures Bytes(a + b) && Encode(a + b) == Encode(a) + Encode(b)
    ensures Encode([c]) == if Stays(c) then [c] else ['%', UPPER[c as int / 16], UPPER[c as int % 16]]
  {
    assert [c][1..] == [];
    DigitIsUpper(c as int / 16);
    DigitIsUpper(c as int % 16);
    if a == [] {
      assert a + b == b;
    } else {
      EncodeShape(a[1..], b, c);
      assert (a + b)[1..] == a[1..] + b;
    }
  }

  /** The character is the digit with this value, in either case. */
  ghost predicate DigitIs(c: char, v: nat)
    requires v < 16
  {
    c == UPPER[v] || c == LOWER[v]
  }

  /** Digits of either case are read with the value of their place in the table. */
  lemma DigitValueIff(c: char, v: nat)
    requires v < 16
    ensures DigitValue(c) == Some(v) <==> DigitIs(c, v)
  {
    DigitIsUpper(v);
    assert |LOWER| == 16;
    assert LOWER[0] == '0' && LOWER[1] == '1' && LOWER[2] == '2' && LOWER[3] == '3' && LOWER[4] == '4';
    assert LOWER[5] == '5' && LOWER[6] == '6' && LOWER[7] == '7' && LOWER[8] == '8' && LOWER[9] == '9';
    assert LOWER[10] == 'a' && LOWER[11] == 'b' && LOWER[12] == 'c' && LOWER[13] == 'd' && LOWER[14] == 'e';
    assert LOWER[15] == 'f';
  }

  /** Two hexadecimal digits of either case that make up the byte. */
  ghost predicate PairSpells(high: char, low: char, byte: char) {
    byte as int < 256
    && DigitIs(high, byte as int / 16) && DigitIs(low, byte as int % 16)
  }

  lemma Halves(h: nat, l: nat)
    requires h < 16 && l < 16
    ensures (h * 16 + l) / 16 == h && (h * 16 + l) % 16 == l && h * 16 + l < 256
  {
  }

  lemma PairValue(high: Option<nat>, low: Option<nat>, byte: char)
    requires (high.Some? ==> high.value < 16) && (low.Some? ==> low.value < 16)
    ensures byte as int < 256 && high == Some(byte as int / 16) && low == Some(byte as int % 16)
            <==> high.Some? && low.Some? && byte == (high.value * 16 + low.value) as char
  {
    if high.Some? && low.Some? { Halves(high.value, low.value); }
  }

  lemma PairIff(high: char, low: char, byte: char)
    ensures PairSpells(high, low, byte)
            <==> && DigitValue(high).Some? && DigitValue(low).Some?
                 && byte == (DigitValue(high).value * 16 + DigitValue(low).value) as char
  {
    PairValue(DigitValue(high), DigitValue(low), byte);
    if byte as int < 256 {
      DigitValueIff(high, byte as int / 16);
      DigitValueIff(low, byte as int % 16);
    }
  }

  /** A text that has been read stands for these bytes: each one plain, or as two digits of either case. */
  ghost predicate Spells(s: string, bytes: string)
    decreases |s|
  {
    if s == [] then bytes == []
    else if s[0] == '%' then
      && |s| >= 3 && bytes != []
      && PairSpells(s[1], s[2], bytes[0])
      && Spells(s[3..], bytes[1..])
    else bytes != [] && bytes[0] == s[0] && Spells(s[1..], bytes[1..])
  }

  lemma {:induction false} DecodeIff(s: string, bytes: string)
    ensures DecodeBytes(s) == Some(bytes) <==> Spells(s, bytes)
    decreases |s|
  {
    if s != [] && bytes != [] {
      assert bytes == [bytes[0]] + bytes[1..];
      if s[0] != '%' {
        DecodeIff(s[1..], bytes[1..]);
      } else if |s| >= 3 {
        DecodeIff(s[3..], bytes[1..]);
        PairIff(s[1], s[2], bytes[0]);
      }
    }
  }

  // ----- Peer contexts -----

  /** Entries by name, joined with commas. */
  lemma PeersText(context: PeerContext, p: Peer)
    requires BytesOnly(context) && Bytes(p.name) && Bytes(p.version)
    ensures PrintPeers([]) == ""
    ensures PrintPeers([p]) == "name=" + Encode(p.name) + ";version=" + Encode(p.version)
    ensures context != [] ==> PrintPeers([p] + context) == PrintPeers([p]) + "," + PrintPeers(context)
  {
    assert PrintedPeers([p]) == [PrintPeer(p)];
    assert PrintedPeers([p] + context) == [PrintPeer(p)] + PrintedPeers(context);
    assert ([PrintPeer(p)] + PrintedPeers(context))[1..] == PrintedPeers(context);
  }

  /** Inserting keeps names increasing, and replaces the version of a name that is there. */
  lemma {:induction false} WithMeans(context: PeerContext, p: Peer)
    requires Increasing(context)
    ensures Increasing(With(context, p))
    ensures forall q :: q in With(context, p) <==> q == p || (q in context && q.name != p.name)
    decreases |context|
  {
    if context != [] {
      var first, rest := context[0], context[1..];
      assert context == [first] + rest;
      forall q | q in rest ensures TextLe(first.name, q.name) && first.name != q.name {
        var i :| 0 <= i < |rest| && rest[i] == q;
        assert context[i + 1] == q;
      }
      TextLeTotal(first.name, p.name);
      if first.name == p.name {
        ConsIncreasing(p, rest);
      } else if TextLe(p.name, first.name) {
        forall q | q in context ensures TextLe(p.name, q.name) && p.name != q.name {
          if q != first {
            TextLeTransitive(p.name, first.name, q.name);
            TextLeTotal(first.name, q.name);
          }
        }
        ConsIncreasing(p, context);
      } else {
        WithMeans(rest, p);
        ConsIncreasing(first, With(rest, p));
      }
    }
  }

  lemma ConsIncreasing(p: Peer, rest: PeerContext)
    requires Increasing(rest) && forall q :: q in rest ==> TextLe(p.name, q.name) && p.name != q.name
    ensures Increasing([p] + rest)
  {
    var all := [p] + rest;
    forall i, j | 0 <= i < j < |all| ensures TextLe(all[i].name, all[j].name) && all[i].name != all[j].name {
      assert all[j] == rest[j - 1] && rest[j - 1] in rest;
      if i > 0 { assert all[i] == rest[i - 1]; }
    }
  }

  lemma {:induction false} DecodedItems(d: Domain, items: seq<string>, context: PeerContext)
    requires WellFormedPeers(d, context) && DecodeItems(d, items, context).Some?
    ensures WellFormedPeers(d, DecodeItems(d, items, context).value)
    decreases |items|
  {
    if items != [] {
      var p := DecodePeer(d, items[0]).value;
      WithMeans(context, p);
      var next := With(context, p);
      forall i | 0 <= i < |next| ensures WellFormedPeer(d, next[i]) {
        assert next[i] in next;
        if next[i] != p {
          var j :| 0 <= j < |context| && context[j] == next[i];
        }
      }
      DecodedItems(d, items[1..], next);
    }
  }

  /** Exactly the printed forms of well-formed contexts are accepted. */
  lemma PeersAcceptedIff(d: Domain, value: string)
    requires Sound(d)
    ensures DecodePeers(d, value).Some?
            <==> exists context :: WellFormedPeers(d, context) && BytesOnly(context) && PrintPeers(context) == value
  {
    if DecodePeers(d, value).Some? {
      var context := DecodePeers(d, value).value;
      if value != "" { DecodedItems(d, Split(value, ','), []); } else { assert PrintPeers(context) == ""; }
      assert WellFormedPeers(d, context) && BytesOnly(context) && PrintPeers(context) == value;
    }
    forall context | WellFormedPeers(d, context) && BytesOnly(context) && PrintPeers(context) == value
      ensures DecodePeers(d, value).Some?
    {
      PeersRoundTrip(d, context);
    }
  }

  // ----- Platform contexts -----

  ghost predicate FieldText(v: Option<string>, text: string)
    requires FieldBytes(v)
  {
    match v
    case None => text == ""
    case Some(value) => text == Encode(value)
  }

  /** Three fields behind their names; a field that is not given is empty. */
  lemma PlatformText(p: PlatformContext, os: string, cpu: string, libc: string)
    requires PlatformBytes(p) && FieldText(p.os, os) && FieldText(p.cpu, cpu) && FieldText(p.libc, libc)
    ensures PrintPlatform(p) == "os=" + os + ";cpu=" + cpu + ";libc=" + libc
    ensures PlatformComponent(p) == "os-" + os + "--cpu-" + cpu + "--libc-" + libc
  {
  }

  /** Exactly the printed forms of well-formed contexts are accepted, and the empty text. */
  lemma PlatformAcceptedIff(d: Domain, value: string)
    requires Sound(d)
    ensures DecodePlatform(d, value).Some?
            <==> value == ""
                 || exists p :: WellFormedPlatform(d, p) && PlatformBytes(p) && PrintPlatform(p) == value
  {
    if DecodePlatform(d, value).Some? && value != "" {
      var p := DecodePlatform(d, value).value;
      assert WellFormedPlatform(d, p) && PlatformBytes(p) && PrintPlatform(p) == value;
    }
    forall p | WellFormedPlatform(d, p) && PlatformBytes(p) && PrintPlatform(p) == value
      ensures DecodePlatform(d, value).Some?
    {
      PlatformRoundTrip(d, p);
    }
  }

  // ----- Keys -----

  /** Source, name and version, and the two contexts, or a dash where one is empty. */
  lemma KeyText(k: Keys.Key, peer: string, platform: string)
    requires peer == if k.peer == "" then "-" else k.peer
    requires platform == if k.platform == "" then "-" else k.platform
    ensures Keys.PrintKey(k)
            == Keys.Printed(k.source) + "|" + (k.name + "@" + k.version)
               + "|" + ("peer=" + peer) + "|" + ("platform=" + platform)
  {
    FourJoined(Keys.Printed(k.source), k.name + "@" + k.version, "peer=" + peer, "platform=" + platform);
  }

  lemma FourJoined(a: string, b: string, c: string, e: string)
    ensures Join([a, b, c, e], '|') == a + "|" + b + "|" + c + "|" + e
  {
    assert [a, b, c, e][1..] == [b, c, e] && [b, c, e][1..] == [c, e] && [c, e][1..] == [e];
    assert Join([c, e], '|') == c + "|" + e;
    assert Join([b, c, e], '|') == b + "|" + (c + "|" + e);
    assert a + "|" + b + "|" + c + "|" + e == a + "|" + (b + "|" + (c + "|" + e));
  }

  /** A registry origin or a copied source stands for itself; a workspace names its path, package and version. */
  lemma SourceText(origin: string, path: string, name: string, version: string)
    ensures Keys.Printed(Keys.Registry(origin)) == origin && Keys.Printed(Keys.Copied(origin)) == origin
    ensures Keys.Printed(Keys.Workspace(path, name, version)) == "workspace:" + path + ":" + name + "@" + version
  {
  }

  /** A registry origin, a copied source, or a workspace package under a canonical path. */
  ghost predicate ProperSource(d: Domain, source: Keys.Source) {
    match source
    case Registry(origin) => d.isOrigin(origin)
    case Copied(text) => d.isCopied(text)
    case Workspace(path, name, version) =>
      Keys.CanonicalPath(path) == Some(path) && ValidName(name) && d.isVersion(version)
  }

  ghost predicate ProperPeers(d: Domain, text: string) {
    exists context :: WellFormedPeers(d, context) && BytesOnly(context) && PrintPeers(context) == text
  }

  ghost predicate ProperPlatform(d: Domain, text: string) {
    text == "" || exists p :: WellFormedPlatform(d, p) && PlatformBytes(p) && PrintPlatform(p) == text
  }

  /** Source, name, version and two contexts are proper, and a workspace source names the same package. */
  ghost predicate Proper(d: Domain, k: Keys.Key) {
    && ProperSource(d, k.source)
    && (k.source.Workspace? ==> k.source.name == k.name && k.source.version == k.version)
    && ValidName(k.name) && d.isVersion(k.version)
    && ProperPeers(d, k.peer) && ProperPlatform(d, k.platform)
  }

  lemma PeersProperIff(d: Domain, text: string)
    requires Sound(d)
    ensures DecodePeers(d, text).Some? <==> ProperPeers(d, text)
  {
    PeersAcceptedIff(d, text);
  }

  lemma PlatformProperIff(d: Domain, text: string)
    requires Sound(d)
    ensures DecodePlatform(d, text).Some? <==> ProperPlatform(d, text)
  {
    PlatformAcceptedIff(d, text);
  }

  lemma SourceProperIff(d: Domain, source: Keys.Source)
    ensures Keys.WellFormedSource(d, source) <==> ProperSource(d, source)
  {
  }

  lemma ProperIff(d: Domain, k: Keys.Key)
    requires Sound(d)
    ensures Keys.WellFormedKey(d, k) <==> Proper(d, k)
  {
    SourceProperIff(d, k.source);
    PeersProperIff(d, k.peer);
    PlatformProperIff(d, k.platform);
  }

  /** Exactly the printed forms of proper keys are accepted. */
  lemma KeyAcceptedIff(d: Domain, value: string)
    requires Sound(d)
    ensures Keys.ParseKey(d, value).Some? <==> exists k :: Proper(d, k) && Keys.PrintKey(k) == value
  {
    if Keys.ParseKey(d, value).Some? {
      Keys.KeyCanonical(d, value);
      ProperIff(d, Keys.ParseKey(d, value).value);
    }
    forall k | Proper(d, k) && Keys.PrintKey(k) == value ensures Keys.ParseKey(d, value).Some? {
      ProperIff(d, k);
      Keys.KeyRoundTrip(d, k);
    }
  }
}
