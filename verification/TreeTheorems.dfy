/** The tree digest's stream determines the tree, and exclusion is removal. */
module TreeTheorems {
  import opened Wrappers
  import opened Ordering
  import opened Text
  import opened Framing
  import opened TreeModel
  import opened TreeRecords
  import opened TreeStream
  import opened ArchiveValidation

  // ----- Equal streams, equal trees -----

  ghost predicate OneLine(lines: seq<string>) { forall i :: 0 <= i < |lines| ==> '\n' !in lines[i] }

  lemma ManifestTextInjective(a: seq<string>, b: seq<string>)
    requires OneLine(a) && OneLine(b) && ManifestText(a) == ManifestText(b)
    ensures a == b
  {
    if a != [] && b != [] {
      assert ManifestText(a)[..|ManifestText(a)| - 1] == Join(a, '\n');
      assert ManifestText(b)[..|ManifestText(b)| - 1] == Join(b, '\n');
      SplitJoin(a, '\n');
      SplitJoin(b, '\n');
    }
  }

  lemma {:induction false} WithoutInsideSubset(entry: string, lines: seq<string>, l: string)
    ensures l in WithoutInside(entry, lines) <==> l in lines && !Inside(entry, l)
  {
    if lines != [] {
      assert lines == [lines[0]] + lines[1..];
      WithoutInsideSubset(entry, lines[1..], l);
    }
  }

  lemma RetainedOneLine(input: Input, excluded: Option<string>)
    requires input.lines.Some? && OneLine(input.lines.value)
    ensures Retained(excluded, input.lines).Some? && OneLine(Retained(excluded, input.lines).value)
  {
    if excluded.Some? {
      var kept := WithoutInside(excluded.value, input.lines.value);
      forall i | 0 <= i < |kept| ensures '\n' !in kept[i] {
        WithoutInsideSubset(excluded.value, input.lines.value, kept[i]);
      }
    }
  }

  /** An input that the digest accepts, on a host with some listing order. */
  ghost predicate Readable(input: Input, excluded: Option<string>, host: Host) {
    && Complete(host.list)
    && Stream(input, excluded, host).Some?
    && AllSmall(Collect(input, excluded, host).value)
  }

  /**
   Equal streams mean equal entries, whatever the names; and equal entries mean equal
   streams unless they clash.
   */
  lemma StreamDeterminesEntries(a: Input, b: Input, excluded: Option<string>, ha: Host, hb: Host)
    requires Readable(a, excluded, ha) && Readable(b, excluded, hb)
    ensures Stream(a, excluded, ha) == Stream(b, excluded, hb)
            ==> multiset(Collect(a, excluded, ha).value) == multiset(Collect(b, excluded, hb).value)
    ensures multiset(Collect(a, excluded, ha).value) == multiset(Collect(b, excluded, hb).value)
            && NoClash(Collect(a, excluded, ha).value)
            ==> Stream(a, excluded, ha) == Stream(b, excluded, hb)
  {
    var x, y := Collect(a, excluded, ha).value, Collect(b, excluded, hb).value;
    if Stream(a, excluded, ha) == Stream(b, excluded, hb) {
      SortSmall(x);
      SortSmall(y);
      FrameAllInjective(Sort(FramedLe, x), Sort(FramedLe, y));
    }
    if multiset(x) == multiset(y) && NoClash(x) { SortedAlike(x, y); }
  }

  /** A name that the host spells as it is. */
  predicate GoodName(spell: string -> string, n: string) { spell(n) == n && '/' !in n }

  ghost predicate GoodPath(spell: string -> string, path: seq<string>) {
    forall i :: 0 <= i < |path| ==> GoodName(spell, path[i])
  }

  ghost predicate GoodNames(spell: string -> string, seen: map<string, Node>) {
    forall q :: At(Dir(seen), q).Some? ==> GoodPath(spell, q)
  }

  lemma {:induction false} RelInjective(f: string -> string, p: seq<string>, g: string -> string, q: seq<string>)
    requires GoodPath(f, p) && GoodPath(g, q) && p != [] && q != [] && Rel(f, p) == Rel(g, q)
    ensures p == q
    decreases |p|
  {
    RelLast(f, p);
    RelLast(g, q);
    if |p| > 1 && |q| > 1 {
      RelInjective(f, p[..|p| - 1], g, q[..|q| - 1]);
      assert p == p[..|p| - 1] + [p[|p| - 1]] && q == q[..|q| - 1] + [q[|q| - 1]];
    }
  }

  lemma RelLast(spell: string -> string, p: seq<string>)
    requires GoodPath(spell, p) && p != []
    ensures |p| == 1 ==> Rel(spell, p) == p[0] && '/' !in Rel(spell, p)
    ensures |p| > 1 ==>
              SplitLast(Rel(spell, p), '/') == Some((Rel(spell, p[..|p| - 1]), p[|p| - 1])) && '/' in Rel(spell, p)
  {
    assert GoodName(spell, p[|p| - 1]);
    if |p| > 1 {
      var front := Rel(spell, p[..|p| - 1]);
      SplitLastFinds(front, '/', p[|p| - 1]);
      assert (front + "/" + p[|p| - 1])[|front|] == '/';
    }
  }

  function Seen(input: Input, excluded: Option<string>, host: Host): map<string, Node> {
    Hashed(host.spell, input.root, excluded)
  }

  /** Every entry but the manifest's is the shown record of a path. */
  lemma EntryOrigin(input: Input, excluded: Option<string>, host: Host, f: Framed)
    requires Complete(host.list) && Collect(input, excluded, host).Some? && f in Collect(input, excluded, host).value
    ensures f.kind == MANIFEST_KIND <==> f in ManifestEntries(Retained(excluded, input.lines))
    ensures f.kind != MANIFEST_KIND ==>
              exists r :: Collected(Seen(input, excluded, host), r) && f == Shown(host.spell, r)
  {
    var records, all := Records(input, excluded, host).value, Collect(input, excluded, host).value;
    var k :| 0 <= k < |all| && all[k] == f;
    if k < |records| {
      assert f == Shown(host.spell, records[k]);
      RecordKinds(input, excluded, host, records[k]);
      WalkRecords(ViewOf(Retained(excluded, input.lines), excluded, host), input.root, records[k]);
    }
  }

  lemma RecordIsEntry(input: Input, excluded: Option<string>, host: Host, r: Record)
    requires Complete(host.list) && Collect(input, excluded, host).Some? && Collected(Seen(input, excluded, host), r)
    ensures Shown(host.spell, r) in Collect(input, excluded, host).value && r.kind != MANIFEST_KIND
    ensures r in Records(input, excluded, host).value
  {
    WalkRecords(ViewOf(Retained(excluded, input.lines), excluded, host), input.root, r);
    var records := Records(input, excluded, host).value;
    var k :| 0 <= k < |records| && records[k] == r;
    assert Collect(input, excluded, host).value[k] == Shown(host.spell, r);
    RecordKinds(input, excluded, host, r);
  }

  ghost predicate SameEntries(a: Input, b: Input, excluded: Option<string>, ha: Host, hb: Host)
    requires Collect(a, excluded, ha).Some? && Collect(b, excluded, hb).Some?
  {
    forall f :: f in Collect(a, excluded, ha).value <==> f in Collect(b, excluded, hb).value
  }

  lemma ManifestIsEntry(input: Input, excluded: Option<string>, host: Host)
    requires Collect(input, excluded, host).Some?
    ensures forall f :: f in ManifestEntries(Retained(excluded, input.lines)) ==>
              f in Collect(input, excluded, host).value
  {
  }

  lemma ManifestCarries(a: Input, b: Input, excluded: Option<string>, ha: Host, hb: Host)
    requires Complete(ha.list) && Complete(hb.list) && Collect(a, excluded, ha).Some? && Collect(b, excluded, hb).Some?
    requires SameEntries(a, b, excluded, ha, hb) && Retained(excluded, a.lines).Some?
    ensures Retained(excluded, b.lines).Some?
    ensures ManifestText(Retained(excluded, a.lines).value) == ManifestText(Retained(excluded, b.lines).value)
  {
    ManifestIsEntry(a, excluded, ha);
    var f := Framed(MANIFEST, MANIFEST_KIND, ManifestText(Retained(excluded, a.lines).value));
    assert f in ManifestEntries(Retained(excluded, a.lines));
    EntryOrigin(b, excluded, hb, f);
  }

  lemma ManifestOneLine(input: Input, excluded: Option<string>, host: Host)
    requires Stream(input, excluded, host).Some?
    ensures Retained(excluded, input.lines).Some? ==> OneLine(Retained(excluded, input.lines).value)
  {
    if input.lines.Some? { RetainedOneLine(input, excluded); }
  }

  /** Equal entries include equal manifests. */
  lemma ManifestDetermined(a: Input, b: Input, excluded: Option<string>, ha: Host, hb: Host)
    requires Readable(a, excluded, ha) && Readable(b, excluded, hb) && SameEntries(a, b, excluded, ha, hb)
    ensures Retained(excluded, a.lines) == Retained(excluded, b.lines)
  {
    ManifestOneLine(a, excluded, ha);
    ManifestOneLine(b, excluded, hb);
    if Retained(excluded, a.lines).Some? {
      ManifestCarries(a, b, excluded, ha, hb);
      ManifestTextInjective(Retained(excluded, a.lines).value, Retained(excluded, b.lines).value);
    } else if Retained(excluded, b.lines).Some? {
      ManifestCarries(b, a, excluded, hb, ha);
    }
  }

  lemma GoodRecordCarries(a: Input, b: Input, excluded: Option<string>, ha: Host, hb: Host, r: Record)
    requires Readable(a, excluded, ha) && Readable(b, excluded, hb) && SameEntries(a, b, excluded, ha, hb)
    requires GoodNames(ha.spell, Seen(a, excluded, ha)) && GoodNames(hb.spell, Seen(b, excluded, hb))
    requires Collected(Seen(a, excluded, ha), r)
    ensures Collected(Seen(b, excluded, hb), r)
  {
    RecordIsEntry(a, excluded, ha, r);
    EntryOrigin(b, excluded, hb, Shown(ha.spell, r));
    var t :| Collected(Seen(b, excluded, hb), t) && Shown(ha.spell, r) == Shown(hb.spell, t);
    RelInjective(ha.spell, r.path, hb.spell, t.path);
    assert r == t;
  }

  /** Among trees whose names are spelled as they are, equal streams mean equal trees and manifests. */
  lemma StreamDeterminesTree(a: Input, b: Input, excluded: Option<string>, ha: Host, hb: Host)
    requires Readable(a, excluded, ha) && Readable(b, excluded, hb)
    requires GoodNames(ha.spell, Seen(a, excluded, ha)) && GoodNames(hb.spell, Seen(b, excluded, hb))
    requires Stream(a, excluded, ha) == Stream(b, excluded, hb)
    ensures Seen(a, excluded, ha) == Seen(b, excluded, hb)
    ensures Retained(excluded, a.lines) == Retained(excluded, b.lines)
  {
    StreamDeterminesEntries(a, b, excluded, ha, hb);
    SameMembers(Collect(a, excluded, ha).value, Collect(b, excluded, hb).value);
    ManifestDetermined(a, b, excluded, ha, hb);
    forall r ensures Collected(Seen(a, excluded, ha), r) <==> Collected(Seen(b, excluded, hb), r) {
      if Collected(Seen(a, excluded, ha), r) { GoodRecordCarries(a, b, excluded, ha, hb, r); }
      if Collected(Seen(b, excluded, hb), r) { GoodRecordCarries(b, a, excluded, hb, ha, r); }
    }
    WalkIsPlain(ViewOf(Retained(excluded, a.lines), excluded, ha), a.root);
    WalkIsPlain(ViewOf(Retained(excluded, b.lines), excluded, hb), b.root);
    RecordsDetermine(Seen(a, excluded, ha), Seen(b, excluded, hb));
  }

  // ----- Excluding an entry is removing it -----

  /** Two views that differ in the excluded name and in how the root is listed, if at all. */
  ghost predicate SameBelow(v: View, w: View) {
    v.manifest == w.manifest && v.spell == w.spell
      && forall p: seq<string>, s :: p != [] ==> v.list(p, s) == w.list(p, s)
  }

  /** The excluded name is only ever looked at directly below the root. */
  lemma {:induction false} DeepVisitSame(v: View, w: View, path: seq<string>, node: Node)
    requires SameBelow(v, w) && path != []
    ensures Visit(v, path, node) == Visit(w, path, node)
    decreases node, 1, 0
  {
    if node.Dir? { DeepVisitAllSame(v, w, path, node, v.list(path, node.children.Keys)); }
  }

  lemma {:induction false} DeepVisitAllSame(v: View, w: View, path: seq<string>, dir: Node, names: seq<string>)
    requires SameBelow(v, w) && path != [] && dir.Dir?
    ensures VisitAll(v, path, dir, names) == VisitAll(w, path, dir, names)
    decreases dir, 0, |names|
  {
    if names != [] {
      if names[0] in dir.children { DeepVisitSame(v, w, path + [names[0]], dir.children[names[0]]); }
      DeepVisitAllSame(v, w, path, dir, names[1..]);
    }
  }

  /** The root without what the walk takes for the entry: every name of that spelling. */
  function CutRoot(spell: string -> string, root: map<string, Node>, entry: string): map<string, Node> {
    map n | n in root && spell(n) != entry :: root[n]
  }

  function CutKeys(spell: string -> string, keys: set<string>, entry: string): set<string> {
    set n | n in keys && spell(n) != entry
  }

  function Cut(spell: string -> string, input: Input, entry: string): Input {
    Input(CutRoot(spell, input.root, entry), Retained(Some(entry), input.lines))
  }

  /** The root has no other name that is spelled like the entry, and the entry is spelled as it is. */
  ghost predicate OnlySpelling(spell: string -> string, root: map<string, Node>, entry: string) {
    forall n :: n in root ==> (spell(n) == entry <==> n == entry)
  }

  /** Exact: exactly one named entry is left out if and only if no other name is spelled like it. */
  lemma CutIsOneIff(spell: string -> string, root: map<string, Node>, entry: string)
    ensures CutRoot(spell, root, entry) == root - {entry} <==> OnlySpelling(spell, root, entry)
  {
    var cut := CutRoot(spell, root, entry);
    if cut == root - {entry} {
      forall n | n in root ensures spell(n) == entry <==> n == entry {
        assert n in cut <==> n in root - {entry};
      }
    }
  }

  /** On Unix no other text is spelled like a name without a separator or a backslash. */
  lemma UnixOnlySpelling(root: map<string, Node>, entry: string)
    requires '/' !in entry && '\\' !in entry
    ensures OnlySpelling(UNIX, root, entry)
  {
    assert Slashed(entry) == entry;
    forall n | n in root && UNIX(n) == entry ensures n == entry { SlashFree(n); }
  }

  lemma SlashFree(n: string)
    requires '/' !in Slashed(n)
    ensures Slashed(n) == n
  {
    forall i | 0 <= i < |n| ensures n[i] != '\\' { assert Slashed(n)[i] in Slashed(n); }
  }

  lemma OneNameSame(v: View, w: View, root: map<string, Node>, entry: string, n: string)
    requires SameBelow(v, w) && v.excluded == Some(entry) && w.excluded == None
    ensures VisitOne(v, [], Dir(root), n)
            == if v.spell(n) == entry then Some([]) else VisitOne(w, [], Dir(CutRoot(v.spell, root, entry)), n)
  {
    assert [] + [n] == [n];
    if n in root && v.spell(n) != entry && !Skipped(w, [n]) { DeepVisitSame(v, w, [n], root[n]); }
  }

  function Without(spell: string -> string, entry: string, names: seq<string>): seq<string> {
    if names == [] then []
    else (if spell(names[0]) == entry then [] else [names[0]]) + Without(spell, entry, names[1..])
  }

  lemma {:induction false} WithoutCounts(spell: string -> string, entry: string, names: seq<string>, x: string)
    ensures multiset(Without(spell, entry, names))[x] == if spell(x) == entry then 0 else multiset(names)[x]
  {
    if names != [] {
      WithoutCounts(spell, entry, names[1..], x);
      assert names == [names[0]] + names[1..];
    }
  }

  lemma {:induction false} WithoutVisits(v: View, w: View, root: map<string, Node>, entry: string, names: seq<string>)
    requires SameBelow(v, w) && v.excluded == Some(entry) && w.excluded == None
    ensures VisitAll(v, [], Dir(root), names)
            == VisitAll(w, [], Dir(CutRoot(v.spell, root, entry)), Without(v.spell, entry, names))
    decreases |names|
  {
    if names != [] {
      OneNameSame(v, w, root, entry, names[0]);
      WithoutVisits(v, w, root, entry, names[1..]);
      var rest := Without(v.spell, entry, names[1..]);
      var tail := VisitAll(v, [], Dir(root), names[1..]);
      if v.spell(names[0]) == entry {
        assert [] + rest == rest;
        if tail.Some? { assert [] + tail.value == tail.value; }
      } else {
        assert ([names[0]] + rest)[1..] == rest;
      }
    }
  }

  /** The listing that shows the root without the entry in the order of the whole root. */
  ghost function CutListing(host: Host, keys: set<string>, entry: string): Listing {
    (p: seq<string>, s: set<string>) =>
      if p == [] && s == CutKeys(host.spell, keys, entry) then Without(host.spell, entry, host.list([], keys))
      else host.list(p, s)
  }

  lemma CutListingIsComplete(host: Host, keys: set<string>, entry: string)
    requires Complete(host.list)
    ensures Complete(CutListing(host, keys, entry))
  {
    var left := Without(host.spell, entry, host.list([], keys));
    assert multiset(host.list([], keys)) == multiset(keys);
    forall x ensures multiset(left)[x] == multiset(CutKeys(host.spell, keys, entry))[x] {
      WithoutCounts(host.spell, entry, host.list([], keys), x);
    }
  }

  lemma WalkCut(v: View, w: View, root: map<string, Node>, entry: string)
    requires v.manifest == w.manifest && v.spell == w.spell && v.excluded == Some(entry) && w.excluded == None
    requires w.list == CutListing(Host(v.list, v.spell), root.Keys, entry)
    ensures Walk(v, root) == Walk(w, CutRoot(v.spell, root, entry))
  {
    assert CutRoot(v.spell, root, entry).Keys == CutKeys(v.spell, root.Keys, entry);
    WithoutVisits(v, w, root, entry, v.list([], root.Keys));
  }

  lemma {:induction false} WithoutInsideIncreasing(entry: string, lines: seq<string>)
    requires StrictlySorted(TextLe, lines)
    ensures StrictlySorted(TextLe, WithoutInside(entry, lines))
  {
    if lines != [] {
      WithoutInsideIncreasing(entry, lines[1..]);
      var rest := WithoutInside(entry, lines[1..]);
      forall l | l in rest ensures lines[0] != l && TextLe(lines[0], l) {
        WithoutInsideSubset(entry, lines[1..], l);
        var j :| 0 <= j < |lines[1..]| && lines[1..][j] == l;
        assert lines[j + 1] == l;
      }
      var kept := WithoutInside(entry, lines);
      if !Inside(entry, lines[0]) {
        assert kept == [lines[0]] + rest;
        forall i, j | 0 <= i < j < |kept| ensures TextLe(kept[i], kept[j]) && kept[i] != kept[j] {
          assert kept[j] == rest[j - 1] && rest[j - 1] in rest;
          if i == 0 {
            assert kept[i] == lines[0];
          } else {
            assert kept[i] == rest[i - 1];
            assert rest[i - 1] != rest[j - 1] && TextLe(rest[i - 1], rest[j - 1]);
          }
        }
      } else {
        assert kept == rest;
      }
    }
  }

  lemma {:induction false} AdjacentIncreasing(lines: seq<string>, i: nat, j: nat)
    requires forall k :: 0 < k < |lines| ==> lines[k - 1] != lines[k] && TextLe(lines[k - 1], lines[k])
    requires i < j < |lines|
    ensures TextLe(lines[i], lines[j]) && lines[i] != lines[j]
    decreases j - i
  {
    if i + 1 < j {
      AdjacentIncreasing(lines, i, j - 1);
      TextLeTransitive(lines[i], lines[j - 1], lines[j]);
      if lines[i] == lines[j] { TextLeTotal(lines[i], lines[j - 1]); }
    }
  }

  /** A line outside the entry starts with another component. */
  lemma OutsideFirstPart(entry: string, line: string)
    requires !Inside(entry, line) && '/' !in entry
    ensures Split(line, '/')[0] != entry
  {
    var i := Find(line, '/');
    if i < |line| {
      assert line == line[..i] + "/" + line[i + 1..];
    }
  }

  /** Manifest lines start with components that are spelled as they are. */
  ghost predicate PlainLines(spell: string -> string, lines: seq<string>) {
    forall i :: 0 <= i < |lines| ==> spell(Split(lines[i], '/')[0]) == Split(lines[i], '/')[0]
  }

  /** On Unix, the lines of a manifest that the digest accepts are spelled as they are. */
  lemma UnixPlainLines(root: map<string, Node>, lines: seq<string>)
    requires ManifestOk(root, lines)
    ensures PlainLines(UNIX, lines)
  {
    forall i | 0 <= i < |lines| ensures UNIX(Split(lines[i], '/')[0]) == Split(lines[i], '/')[0] {
      NormalizedIsPortable(lines[i]);
      var part := Split(lines[i], '/')[0];
      assert PortablePart(part);
      assert Slashed(part) == part;
    }
  }

  lemma CutManifestOk(spell: string -> string, root: map<string, Node>, lines: seq<string>, entry: string)
    requires ManifestOk(root, lines) && '/' !in entry && PlainLines(spell, lines)
    ensures ManifestOk(CutRoot(spell, root, entry), WithoutInside(entry, lines))
  {
    var kept := WithoutInside(entry, lines);
    KeptRising(lines, entry);
    forall i | 0 <= i < |kept|
      ensures NormalizedPath(kept[i]) == Ok(kept[i]) && '\n' !in kept[i]
              && IsFile(CutRoot(spell, root, entry), kept[i]) {
      WithoutInsideSubset(entry, lines, kept[i]);
      var k :| 0 <= k < |lines| && lines[k] == kept[i];
      OutsideIsFile(spell, root, entry, kept[i]);
    }
  }

  lemma KeptRising(lines: seq<string>, entry: string)
    requires forall k :: 0 < k < |lines| ==> lines[k - 1] != lines[k] && TextLe(lines[k - 1], lines[k])
    ensures StrictlySorted(TextLe, WithoutInside(entry, lines))
  {
    forall i, j | 0 <= i < j < |lines| ensures TextLe(lines[i], lines[j]) && lines[i] != lines[j] {
      AdjacentIncreasing(lines, i, j);
    }
    WithoutInsideIncreasing(entry, lines);
  }

  lemma OutsideIsFile(spell: string -> string, root: map<string, Node>, entry: string, line: string)
    requires !Inside(entry, line) && '/' !in entry && IsFile(root, line)
    requires spell(Split(line, '/')[0]) == Split(line, '/')[0]
    ensures IsFile(CutRoot(spell, root, entry), line)
  {
    OutsideFirstPart(entry, line);
  }

  ghost predicate ManifestRejected(input: Input) {
    input.lines.Some? && !ManifestOk(input.root, input.lines.value)
  }

  /**
   Hashing with a root entry excluded is hashing the tree without it and without its
   manifest lines, whatever the listing order, when the rest of the root is listed in
   the same order. A manifest that the digest rejects is rejected as a whole.
   */
  lemma ExcludingIsCutting(input: Input, entry: string, host: Host)
    requires entry != MANIFEST && '/' !in entry && Complete(host.list)
    requires input.lines.Some? ==> PlainLines(host.spell, input.lines.value)
    ensures Complete(CutListing(host, input.root.Keys, entry))
    ensures var other := Host(CutListing(host, input.root.Keys, entry), host.spell);
            Stream(input, Some(entry), host)
            == if ManifestRejected(input) then None else Stream(Cut(host.spell, input, entry), None, other)
  {
    var other := Host(CutListing(host, input.root.Keys, entry), host.spell);
    CutListingIsComplete(host, input.root.Keys, entry);
    CollectCut(input, entry, host);
    CutManifestStays(input, entry, host.spell);
    if !ManifestRejected(input) {
      StreamOfCollect(input, Some(entry), host, Cut(host.spell, input, entry), None, other);
    }
  }

  lemma CollectCut(input: Input, entry: string, host: Host)
    ensures var other := Host(CutListing(host, input.root.Keys, entry), host.spell);
            Collect(input, Some(entry), host) == Collect(Cut(host.spell, input, entry), None, other)
  {
    var lines := Retained(Some(entry), input.lines);
    var other := Host(CutListing(host, input.root.Keys, entry), host.spell);
    assert Host(host.list, host.spell) == host;
    WalkCut(ViewOf(lines, Some(entry), host), ViewOf(lines, None, other), input.root, entry);
  }

  lemma CutManifestStays(input: Input, entry: string, spell: string -> string)
    requires '/' !in entry && (input.lines.Some? ==> PlainLines(spell, input.lines.value))
    ensures !ManifestRejected(input) ==> !ManifestRejected(Cut(spell, input, entry))
  {
    if input.lines.Some? && !ManifestRejected(input) {
      CutManifestOk(spell, input.root, input.lines.value, entry);
    }
  }

  /** Equal entries of two accepted manifests make equal streams. */
  lemma StreamOfCollect(a: Input, ea: Option<string>, ha: Host, b: Input, eb: Option<string>, hb: Host)
    requires !ManifestRejected(a) && !ManifestRejected(b) && Collect(a, ea, ha) == Collect(b, eb, hb)
    ensures Stream(a, ea, ha) == Stream(b, eb, hb)
  {
  }

  /**
   With the same listing on both sides, the two hashes agree whenever the tree without
   the entry does not depend on listing order.
   */
  lemma ExcludingIsRemoving(input: Input, entry: string, host: Host)
    requires entry != MANIFEST && '/' !in entry && Complete(host.list)
    requires input.lines.Some? ==> PlainLines(host.spell, input.lines.value)
    requires OrderFree(Cut(host.spell, input, entry), None, host.spell)
    ensures Stream(input, Some(entry), host)
            == if ManifestRejected(input) then None else Stream(Cut(host.spell, input, entry), None, host)
  {
    ExcludingIsCutting(input, entry, host);
    assert host == Host(host.list, host.spell);
  }

  // ----- Hashing file contents -----

  /**
   `hash_file_contents` on a reader that returns short reads at will: it succeeds
   exactly when the file still has the recorded length, and then feeds all of it.
   */
  method HashFileContents(contents: Bytes, length: nat, hints: nat -> nat) returns (ok: bool, fed: Bytes)
    ensures ok <==> |contents| == length
    ensures ok ==> fed == contents
    ensures fed <= contents && |fed| <= length
  {
    fed := [];
    var remaining: nat, at: nat := length, 0;
    while remaining != 0
      invariant at + remaining == length && at <= |contents| && fed == contents[..at]
      decreases remaining
    {
      var size := if remaining < CHUNK then remaining else CHUNK;
      var count := ReadCount(size, |contents| - at, hints(at));
      if count == 0 { return false, fed; }
      fed := fed + contents[at..at + count];
      at := at + count;
      remaining := remaining - count;
    }
    if at < |contents| { return false, fed; }
    return true, fed;
  }
}
