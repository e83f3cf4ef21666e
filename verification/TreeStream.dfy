/**
 The byte stream fed to the tree hash (`tree_digest`, crates/tapid-archive/src/lib.rs),
 and when it depends on the order in which directories are listed.
 */
module TreeStream {
  import opened Wrappers
  import opened Ordering
  import opened Text
  import opened Framing
  import opened TreeModel
  import opened TreeRecords
  import opened ArchiveValidation

  /** A root directory, with the lines of its executable manifest if it has one. */
  datatype Input = Input(root: map<string, Node>, lines: Option<seq<string>>)

  // ----- The manifest -----

  predicate IsFile(root: map<string, Node>, line: string) {
    var n := At(Dir(root), Split(line, '/'));
    n.Some? && n.value.File?
  }

  /** What `read_executable_manifest` insists on. */
  predicate ManifestOk(root: map<string, Node>, lines: seq<string>) {
    && (forall i :: 0 <= i < |lines| ==>
          NormalizedPath(lines[i]) == Ok(lines[i]) && '\n' !in lines[i] && IsFile(root, lines[i]))
    && (forall i :: 0 < i < |lines| ==> lines[i - 1] != lines[i] && TextLe(lines[i - 1], lines[i]))
  }

  function ManifestText(lines: seq<string>): string {
    if lines == [] then "" else Join(lines, '\n') + "\n"
  }

  /** A manifest line that names the excluded entry or something inside it. */
  predicate Inside(entry: string, line: string) { line == entry || entry + "/" <= line }

  function WithoutInside(entry: string, lines: seq<string>): seq<string> {
    if lines == [] then []
    else (if Inside(entry, lines[0]) then [] else [lines[0]]) + WithoutInside(entry, lines[1..])
  }

  function Retained(excluded: Option<string>, lines: Option<seq<string>>): Option<seq<string>> {
    if lines.None? || excluded.None? then lines else Some(WithoutInside(excluded.value, lines.value))
  }

  // ----- The stream -----

  function ViewOf(lines: Option<seq<string>>, excluded: Option<string>, host: Host): View {
    View(if lines.None? then None else Some(set l | l in lines.value), excluded, host.list, host.spell)
  }

  /** One entry of the source's vector: spelled path, type byte and contents. */
  datatype Framed = Framed(path: string, kind: Byte, data: Bytes)

  function Shown(spell: string -> string, r: Record): Framed { Framed(Rel(spell, r.path), r.kind, r.data) }

  function ShownAll(spell: string -> string, s: seq<Record>): (f: seq<Framed>)
    ensures |f| == |s| && forall i :: 0 <= i < |s| ==> f[i] == Shown(spell, s[i])
  {
    seq(|s|, i requires 0 <= i < |s| => Shown(spell, s[i]))
  }

  function ManifestEntries(lines: Option<seq<string>>): seq<Framed> {
    if lines.None? then [] else [Framed(MANIFEST, MANIFEST_KIND, ManifestText(lines.value))]
  }

  /** The records of the walk that the digest makes. */
  function Records(input: Input, excluded: Option<string>, host: Host): Option<seq<Record>> {
    Walk(ViewOf(Retained(excluded, input.lines), excluded, host), input.root)
  }

  /** Entries of the tree as it is hashed, before sorting. */
  function Collect(input: Input, excluded: Option<string>, host: Host): Option<seq<Framed>> {
    var records := Records(input, excluded, host);
    if records.None? then None
    else Some(ShownAll(host.spell, records.value) + ManifestEntries(Retained(excluded, input.lines)))
  }

  /** The sort key of the source: path, then type byte. */
  predicate FramedLe(a: Framed, b: Framed) {
    if a.path != b.path then TextLe(a.path, b.path) else a.kind <= b.kind
  }

  /** Path, type byte and contents, each length in front of what it measures. */
  function Frame(f: Framed): Bytes { BigField(f.path) + [f.kind] + BigField(f.data) }

  function FrameAll(s: seq<Framed>): Bytes {
    if s == [] then [] else Frame(s[0]) + FrameAll(s[1..])
  }

  /** The bytes hashed, or None where the source reports an error. */
  function Stream(input: Input, excluded: Option<string>, host: Host): Option<Bytes> {
    if input.lines.Some? && !ManifestOk(input.root, input.lines.value) then None
    else
      var entries := Collect(input, excluded, host);
      if entries.None? then None else Some(FrameAll(Sort(FramedLe, entries.value)))
  }

  lemma FramedOrder()
    ensures Ranking(FramedLe)
  {
    forall x, y ensures FramedLe(x, y) || FramedLe(y, x) { TextLeTotal(x.path, y.path); }
    forall x, y, z | FramedLe(x, y) && FramedLe(y, z) ensures FramedLe(x, z) {
      if x.path != y.path && y.path != z.path {
        TextLeTransitive(x.path, y.path, z.path);
        if x.path == z.path { TextLeTotal(x.path, y.path); }
      }
    }
  }

  lemma SameRank(x: Framed, y: Framed)
    ensures FramedLe(x, y) && FramedLe(y, x) <==> x.path == y.path && x.kind == y.kind
  {
    TextLeTotal(x.path, y.path);
  }

  // ----- Without a clash, listing order does not matter -----

  /** No two entries share the whole sort key and differ in contents. */
  predicate NoClash(s: seq<Framed>) {
    forall i, j :: 0 <= i < |s| && 0 <= j < |s| && s[i].path == s[j].path && s[i].kind == s[j].kind ==>
        s[i].data == s[j].data
  }

  lemma SortedAlike(a: seq<Framed>, b: seq<Framed>)
    requires NoClash(a) && multiset(a) == multiset(b)
    ensures Sort(FramedLe, a) == Sort(FramedLe, b)
  {
    FramedOrder();
    SortSorted(FramedLe, a);
    SortSorted(FramedLe, b);
    SortElements(FramedLe, a);
    var s := Sort(FramedLe, a);
    forall x, y | x in s && y in s && FramedLe(x, y) && FramedLe(y, x) ensures x == y {
      SameRank(x, y);
      var i, j :| 0 <= i < |a| && 0 <= j < |a| && a[i] == x && a[j] == y;
    }
    SortedUnique(FramedLe, s, Sort(FramedLe, b));
  }

  lemma {:induction false} ShownMultiset(spell: string -> string, a: seq<Record>, b: seq<Record>)
    requires multiset(a) == multiset(b)
    ensures multiset(ShownAll(spell, a)) == multiset(ShownAll(spell, b))
    decreases |a|
  {
    assert |multiset(a)| == |a| && |multiset(b)| == |b|;
    if a != [] {
      var x, y := SplitAround(a, b);
      ShownMultiset(spell, a[1..], x + y);
      ShownFront(spell, a);
      ShownMiddle(spell, x, a[0], y);
    }
  }

  lemma ShownFront(spell: string -> string, a: seq<Record>)
    requires a != []
    ensures ShownAll(spell, a) == [Shown(spell, a[0])] + ShownAll(spell, a[1..])
  {
  }

  lemma ShownMiddle(spell: string -> string, x: seq<Record>, r: Record, y: seq<Record>)
    ensures multiset(ShownAll(spell, x + [r] + y)) == multiset{Shown(spell, r)} + multiset(ShownAll(spell, x + y))
  {
    ShownAppend(spell, x, [r]);
    ShownAppend(spell, x + [r], y);
    ShownAppend(spell, x, y);
    Middle(ShownAll(spell, x), Shown(spell, r), ShownAll(spell, y));
    assert ShownAll(spell, [r]) == [Shown(spell, r)];
  }

  lemma ShownAppend(spell: string -> string, a: seq<Record>, b: seq<Record>)
    ensures ShownAll(spell, a + b) == ShownAll(spell, a) + ShownAll(spell, b)
  {
  }

  lemma Middle(p: seq<Framed>, f: Framed, q: seq<Framed>)
    ensures multiset(p + [f] + q) == multiset{f} + multiset(p + q)
  {
    assert multiset(p + [f] + q) == multiset(p) + multiset{f} + multiset(q);
    assert multiset(p + q) == multiset(p) + multiset(q);
  }

  /** Two hosts that spell alike collect the same entries, whatever their listing orders. */
  lemma CollectAlike(input: Input, excluded: Option<string>, a: Host, b: Host)
    requires Complete(a.list) && Complete(b.list) && a.spell == b.spell
    ensures Collect(input, excluded, a).Some? <==> Collect(input, excluded, b).Some?
    ensures Collect(input, excluded, a).Some? ==>
              multiset(Collect(input, excluded, a).value) == multiset(Collect(input, excluded, b).value)
  {
    var lines := Retained(excluded, input.lines);
    WalkAlike(ViewOf(lines, excluded, a), ViewOf(lines, excluded, b), input.root);
    if Records(input, excluded, a).Some? {
      ShownMultiset(a.spell, Records(input, excluded, a).value, Records(input, excluded, b).value);
    }
  }

  lemma WalkAlike(v: View, w: View, root: map<string, Node>)
    requires SameView(v, w) && Complete(v.list) && Complete(w.list)
    ensures Alike(Walk(v, root), Walk(w, root))
  {
    VisitOrder(v, w, [], Dir(root));
    VisitIsWalk(v, root);
    VisitIsWalk(w, root);
    if Walk(v, root).Some? && Walk(w, root).Some? {
      CancelFront(Record([], DIRECTORY, []), Walk(v, root).value, Walk(w, root).value);
    }
  }

  lemma VisitIsWalk(v: View, root: map<string, Node>)
    ensures Visit(v, [], Dir(root))
            == if Walk(v, root).None? then None else Some([Record([], DIRECTORY, [])] + Walk(v, root).value)
  {
  }

  lemma CancelFront(r: Record, x: seq<Record>, y: seq<Record>)
    requires multiset([r] + x) == multiset([r] + y)
    ensures multiset(x) == multiset(y)
  {
    assert multiset(x) == multiset([r] + x) - multiset{r};
    assert multiset(y) == multiset([r] + y) - multiset{r};
  }

  lemma NoClashStreams(input: Input, excluded: Option<string>, a: Host, b: Host)
    requires Complete(a.list) && Complete(b.list) && a.spell == b.spell
    requires Collect(input, excluded, a).Some? ==> NoClash(Collect(input, excluded, a).value)
    ensures Stream(input, excluded, a) == Stream(input, excluded, b)
  {
    CollectAlike(input, excluded, a, b);
    if Collect(input, excluded, a).Some? {
      SortedAlike(Collect(input, excluded, a).value, Collect(input, excluded, b).value);
    }
  }

  // ----- The framing is uniquely decodable -----

  /** Lengths that fit the 64-bit fields. */
  ghost predicate Small(f: Framed) { |f.path| < U64 && |f.data| < U64 }

  ghost predicate AllSmall(s: seq<Framed>) { forall f :: f in s ==> Small(f) }

  function Unframe(s: Bytes): Option<(Framed, Bytes)> {
    var path := TakeBig(s);
    if path.None? || path.value.1 == [] then None
    else
      var data := TakeBig(path.value.1[1..]);
      if data.None? then None else Some((Framed(path.value.0, path.value.1[0], data.value.0), data.value.1))
  }

  lemma UnframeRoundTrip(f: Framed, rest: Bytes)
    requires Small(f)
    ensures Unframe(Frame(f) + rest) == Some((f, rest))
  {
    var tail := BigField(f.data) + rest;
    assert Frame(f) + rest == BigField(f.path) + ([f.kind] + tail);
    BigFieldRoundTrip(f.path, [f.kind] + tail);
    assert ([f.kind] + tail)[1..] == tail;
    BigFieldRoundTrip(f.data, rest);
  }

  /** Equal framings frame equal entries, one by one. */
  lemma {:induction false} FrameAllInjective(a: seq<Framed>, b: seq<Framed>)
    requires AllSmall(a) && AllSmall(b) && FrameAll(a) == FrameAll(b)
    ensures a == b
  {
    if a != [] && b != [] {
      assert a[0] in a && b[0] in b;
      UnframeRoundTrip(a[0], FrameAll(a[1..]));
      UnframeRoundTrip(b[0], FrameAll(b[1..]));
      FrameAllInjective(a[1..], b[1..]);
      assert a == [a[0]] + a[1..] && b == [b[0]] + b[1..];
    }
  }

  lemma SortSmall(s: seq<Framed>)
    requires AllSmall(s)
    ensures AllSmall(Sort(FramedLe, s))
  {
    SortElements(FramedLe, s);
  }

  // ----- With a clash, listing order shows -----

  /** The contents of the first entry with the given sort key. */
  function FirstOf(s: seq<Framed>, path: string, kind: Byte): Option<Bytes> {
    if s == [] then None
    else if s[0].path == path && s[0].kind == kind then Some(s[0].data)
    else FirstOf(s[1..], path, kind)
  }

  lemma {:induction false} InsertKeepsFirst(x: Framed, s: seq<Framed>, path: string, kind: Byte)
    ensures FirstOf(Insert(FramedLe, x, s), path, kind)
            == if x.path == path && x.kind == kind then Some(x.data) else FirstOf(s, path, kind)
  {
    if s == [] || FramedLe(x, s[0]) {
      assert ([x] + s)[1..] == s;
    } else {
      SameRank(x, s[0]);
      InsertKeepsFirst(x, s[1..], path, kind);
      var rest := Insert(FramedLe, x, s[1..]);
      assert ([s[0]] + rest)[1..] == rest;
    }
  }

  /** A stable sort keeps the first of every class of tied entries. */
  lemma {:induction false} SortKeepsFirst(s: seq<Framed>, path: string, kind: Byte)
    ensures FirstOf(Sort(FramedLe, s), path, kind) == FirstOf(s, path, kind)
  {
    if s != [] {
      SortKeepsFirst(s[1..], path, kind);
      InsertKeepsFirst(s[0], Sort(FramedLe, s[1..]), path, kind);
    }
  }

  /** `x` comes after directories only. */
  ghost predicate LeadsTo(s: seq<Record>, x: Record) {
    exists k :: 0 <= k < |s| && s[k] == x && forall i :: 0 <= i < k ==> s[i].kind == DIRECTORY
  }

  lemma {:induction false} LeaderIsFirst(spell: string -> string, s: seq<Record>, more: seq<Framed>, x: Record, k: nat)
    requires k < |s| && s[k] == x && x.kind != DIRECTORY && forall i :: 0 <= i < k ==> s[i].kind == DIRECTORY
    ensures FirstOf(ShownAll(spell, s) + more, Rel(spell, x.path), x.kind) == Some(x.data)
    decreases k
  {
    ShownFront(spell, s);
    Behind(Shown(spell, s[0]), ShownAll(spell, s[1..]), more);
    if k > 0 {
      forall i | 0 <= i < k - 1 ensures s[1..][i].kind == DIRECTORY { assert s[1..][i] == s[i + 1]; }
      LeaderIsFirst(spell, s[1..], more, x, k - 1);
    }
  }

  lemma Behind(f: Framed, a: seq<Framed>, b: seq<Framed>)
    ensures ([f] + a + b)[0] == f && ([f] + a + b)[1..] == a + b
  {
  }

  ghost function Enumerate(s: set<string>): (r: seq<string>)
    ensures multiset(r) == multiset(s)
  {
    if s == {} then []
    else
      var x :| x in s;
      assert s == (s - {x}) + {x};
      [x] + Enumerate(s - {x})
  }

  ghost function Lead(target: seq<string>, p: seq<string>, s: set<string>): (r: seq<string>)
    ensures multiset(r) == multiset(s)
  {
    if |p| < |target| && p == target[..|p|] && target[|p|] in s then
      assert s == (s - {target[|p|]}) + {target[|p|]};
      [target[|p|]] + Enumerate(s - {target[|p|]})
    else Enumerate(s)
  }

  /** A complete listing that shows the way to `target` first in every directory. */
  ghost function Leading(target: seq<string>): Listing {
    (p: seq<string>, s: set<string>) => Lead(target, p, s)
  }

  lemma LeadingIsComplete(target: seq<string>)
    ensures Complete(Leading(target))
  {
  }

  lemma LeadsToLonger(first: seq<Record>, rest: seq<Record>, x: Record)
    requires LeadsTo(first, x)
    ensures LeadsTo(first + rest, x)
  {
    var k :| 0 <= k < |first| && first[k] == x && forall i :: 0 <= i < k ==> first[i].kind == DIRECTORY;
    assert (first + rest)[k] == x && forall i :: 0 <= i < k ==> (first + rest)[i] == first[i];
  }

  lemma LeadsThroughFirst(v: View, path: seq<string>, dir: Node, names: seq<string>, x: Record)
    requires dir.Dir? && names != [] && VisitAll(v, path, dir, names).Some?
    requires VisitOne(v, path, dir, names[0]).Some? && LeadsTo(VisitOne(v, path, dir, names[0]).value, x)
    ensures LeadsTo(VisitAll(v, path, dir, names).value, x)
  {
    LeadsToLonger(VisitOne(v, path, dir, names[0]).value, VisitAll(v, path, dir, names[1..]).value, x);
  }

  lemma LeadIsFirst(x: Record, path: seq<string>, s: set<string>)
    requires |path| < |x.path| && path == x.path[..|path|] && x.path[|path|] in s
    ensures Leading(x.path)(path, s) != [] && Leading(x.path)(path, s)[0] == x.path[|path|]
  {
  }

  /** The name through which a record of a directory was reached. */
  lemma ReachedThrough(v: View, path: seq<string>, dir: Node, names: seq<string>, x: Record)
    requires Complete(v.list) && dir.Dir? && VisitAll(v, path, dir, names).Some?
             && x in VisitAll(v, path, dir, names).value
    ensures |path| < |x.path| && path == x.path[..|path|] && x.path[|path|] in dir.children
    ensures !Skipped(v, path + [x.path[|path|]])
    ensures VisitOne(v, path, dir, x.path[|path|]).Some? && x in VisitOne(v, path, dir, x.path[|path|]).value
  {
    VisitAllMembers(v, path, dir, names, x);
    var n :| n in names && VisitOne(v, path, dir, n).Some? && x in VisitOne(v, path, dir, n).value;
    OneBelow(v, path, dir, n, x);
    PrefixParts(path, n, x.path);
  }

  lemma PrefixParts(path: seq<string>, n: string, whole: seq<string>)
    requires path + [n] <= whole
    ensures |path| < |whole| && path == whole[..|path|]
  {
    assert (path + [n])[..|path|] == path;
  }

  lemma {:induction false} VisitLeads(v: View, path: seq<string>, node: Node, x: Record)
    requires v.list == Leading(x.path) && Visit(v, path, node).Some? && x in Visit(v, path, node).value
    requires x.kind != DIRECTORY
    ensures LeadsTo(Visit(v, path, node).value, x)
    decreases node
  {
    LeadingIsComplete(x.path);
    if node.Dir? {
      var names := v.list(path, node.children.Keys);
      var inside := VisitAll(v, path, node, names).value;
      assert x in inside;
      ReachedThrough(v, path, node, names, x);
      VisitLeads(v, path + [x.path[|path|]], node.children[x.path[|path|]], x);
      LeadIsFirst(x, path, node.children.Keys);
      LeadsThroughFirst(v, path, node, names, x);
      BehindDirectory(Record(path, DIRECTORY, []), inside, x);
    } else {
      assert Visit(v, path, node).value[0] == x;
    }
  }

  lemma BehindDirectory(d: Record, s: seq<Record>, x: Record)
    requires d.kind == DIRECTORY && LeadsTo(s, x)
    ensures LeadsTo([d] + s, x)
  {
    var k :| 0 <= k < |s| && s[k] == x && forall i :: 0 <= i < k ==> s[i].kind == DIRECTORY;
    assert ([d] + s)[k + 1] == x && forall i :: 0 < i <= k ==> ([d] + s)[i] == s[i - 1];
  }

  lemma WalkLeads(v: View, root: map<string, Node>, x: Record)
    requires v.list == Leading(x.path) && Walk(v, root).Some? && x in Walk(v, root).value && x.kind != DIRECTORY
    ensures LeadsTo(Walk(v, root).value, x)
  {
    LeadingIsComplete(x.path);
    var names := v.list([], root.Keys);
    ReachedThrough(v, [], Dir(root), names, x);
    assert [] + [x.path[0]] == [x.path[0]];
    VisitLeads(v, [x.path[0]], root[x.path[0]], x);
    LeadIsFirst(x, [], root.Keys);
    LeadsThroughFirst(v, [], Dir(root), names, x);
  }

  /** Listed on the way to `x` first, the sorted entries have the contents of `x` first in its class. */
  lemma LeadingShows(input: Input, excluded: Option<string>, spell: string -> string, x: Record)
    requires Records(input, excluded, Host(Leading(x.path), spell)).Some?
    requires x in Records(input, excluded, Host(Leading(x.path), spell)).value && x.kind != DIRECTORY
    ensures FirstOf(Sort(FramedLe, Collect(input, excluded, Host(Leading(x.path), spell)).value), Rel(spell, x.path),
        x.kind)
            == Some(x.data)
  {
    var host := Host(Leading(x.path), spell);
    var lines := Retained(excluded, input.lines);
    WalkLeads(ViewOf(lines, excluded, host), input.root, x);
    var records := Records(input, excluded, host).value;
    var k :| 0 <= k < |records| && records[k] == x && forall i :: 0 <= i < k ==> records[i].kind == DIRECTORY;
    LeaderIsFirst(spell, records, ManifestEntries(lines), x, k);
    SortKeepsFirst(Collect(input, excluded, host).value, Rel(spell, x.path), x.kind);
  }

  /** Collected records have the type byte of a file, a directory or an executable. */
  lemma RecordKinds(input: Input, excluded: Option<string>, host: Host, r: Record)
    requires Complete(host.list) && Records(input, excluded, host).Some? && r in Records(input, excluded, host).value
    ensures r.kind in {PLAIN, DIRECTORY, EXECUTABLE} && (r.kind == DIRECTORY ==> r.data == [])
  {
    WalkRecords(ViewOf(Retained(excluded, input.lines), excluded, host), input.root, r);
  }

  /** A clash is a clash of two files. */
  lemma ClashIsOfRecords(input: Input, excluded: Option<string>, host: Host) returns (x: Record, y: Record)
    requires Complete(host.list) && Collect(input, excluded, host).Some?
             && !NoClash(Collect(input, excluded, host).value)
    ensures x in Records(input, excluded, host).value && y in Records(input, excluded, host).value
    ensures Rel(host.spell, x.path) == Rel(host.spell, y.path) && x.kind == y.kind != DIRECTORY && x.data != y.data
  {
    var records, all := Records(input, excluded, host).value, Collect(input, excluded, host).value;
    var i, j :| 0 <= i < |all| && 0 <= j < |all| && all[i].path == all[j].path && all[i].kind == all[j].kind
      && all[i].data != all[j].data;
    forall k | 0 <= k < |records|
      ensures all[k].kind != MANIFEST_KIND && (all[k].kind == DIRECTORY ==> all[k].data == []) {
      assert all[k] == Shown(host.spell, records[k]);
      RecordKinds(input, excluded, host, records[k]);
    }
    assert i < |records| && j < |records|;
    x, y := records[i], records[j];
    assert all[i] == Shown(host.spell, x) && all[j] == Shown(host.spell, y);
  }

  /** These bytes frame entries of which `data` is the first with its sort key. */
  ghost predicate ShowsFirst(bytes: Bytes, path: string, kind: Byte, data: Bytes) {
    exists s :: AllSmall(s) && bytes == FrameAll(s) && FirstOf(s, path, kind) == Some(data)
  }

  lemma ShownFirstOnce(bytes: Bytes, path: string, kind: Byte, a: Bytes, b: Bytes)
    requires ShowsFirst(bytes, path, kind, a) && ShowsFirst(bytes, path, kind, b)
    ensures a == b
  {
    var s :| AllSmall(s) && bytes == FrameAll(s) && FirstOf(s, path, kind) == Some(a);
    var t :| AllSmall(t) && bytes == FrameAll(t) && FirstOf(t, path, kind) == Some(b);
    FrameAllInjective(s, t);
  }

  /** Listed on the way to `x` first, the stream shows the contents of `x` first in its class. */
  lemma LeadingStream(input: Input, excluded: Option<string>, host: Host, x: Record)
    requires Complete(host.list) && Stream(input, excluded, host).Some?
    requires AllSmall(Collect(input, excluded, host).value)
    requires x in Records(input, excluded, host).value && x.kind != DIRECTORY
    ensures Complete(Leading(x.path)) && Stream(input, excluded, Host(Leading(x.path), host.spell)).Some?
    ensures ShowsFirst(Stream(input, excluded, Host(Leading(x.path), host.spell)).value, Rel(host.spell, x.path),
        x.kind, x.data)
  {
    LeadingIsComplete(x.path);
    StillCollected(input, excluded, host, Leading(x.path), x);
    LeadingShows(input, excluded, host.spell, x);
    SortSmall(Collect(input, excluded, Host(Leading(x.path), host.spell)).value);
  }

  lemma ClashShows(input: Input, excluded: Option<string>, host: Host) returns (a: Listing, b: Listing)
    requires Complete(host.list) && Stream(input, excluded, host).Some?
    requires AllSmall(Collect(input, excluded, host).value) && !NoClash(Collect(input, excluded, host).value)
    ensures Complete(a) && Complete(b)
    ensures Stream(input, excluded, Host(a, host.spell)) != Stream(input, excluded, Host(b, host.spell))
  {
    var x, y := ClashIsOfRecords(input, excluded, host);
    a, b := Leading(x.path), Leading(y.path);
    LeadingStream(input, excluded, host, x);
    LeadingStream(input, excluded, host, y);
    var bytes := Stream(input, excluded, Host(a, host.spell)).value;
    if Stream(input, excluded, Host(b, host.spell)).value == bytes {
      ShownFirstOnce(bytes, Rel(host.spell, x.path), x.kind, x.data, y.data);
    }
  }

  /** Another complete listing collects the same records and entries. */
  lemma StillCollected(input: Input, excluded: Option<string>, host: Host, list: Listing, x: Record)
    requires Complete(host.list) && Complete(list) && Collect(input, excluded, host).Some?
    requires AllSmall(Collect(input, excluded, host).value) && x in Records(input, excluded, host).value
    ensures var other := Host(list, host.spell);
            && Collect(input, excluded, other).Some? && AllSmall(Collect(input, excluded, other).value)
            && x in Records(input, excluded, other).value
  {
    var other := Host(list, host.spell);
    var lines := Retained(excluded, input.lines);
    CollectAlike(input, excluded, host, other);
    SameMembers(Collect(input, excluded, host).value, Collect(input, excluded, other).value);
    WalkRecords(ViewOf(lines, excluded, host), input.root, x);
    WalkRecords(ViewOf(lines, excluded, other), input.root, x);
  }

  lemma SameMembers<T(!new)>(a: seq<T>, b: seq<T>)
    requires multiset(a) == multiset(b)
    ensures forall x :: x in a <==> x in b
  {
    forall x ensures x in a <==> x in b { assert x in multiset(a) <==> x in multiset(b); }
  }

  /** The stream is the same for every order in which directories are listed. */
  ghost predicate OrderFree(input: Input, excluded: Option<string>, spell: string -> string) {
    forall a: Listing, b: Listing :: Complete(a) && Complete(b) ==>
      Stream(input, excluded, Host(a, spell)) == Stream(input, excluded, Host(b, spell))
  }

  /**
   Exact: the stream ignores directory order if and only if no two entries share path
   text and type byte and differ in contents. A tree that cannot be hashed fails in
   every order.
   */
  lemma StreamIgnoresOrderIff(input: Input, excluded: Option<string>, host: Host)
    requires Complete(host.list)
    requires Collect(input, excluded, host).Some? ==> AllSmall(Collect(input, excluded, host).value)
    ensures OrderFree(input, excluded, host.spell)
            <==> (Stream(input, excluded, host).Some? ==> NoClash(Collect(input, excluded, host).value))
  {
    if Stream(input, excluded, host).Some? && !NoClash(Collect(input, excluded, host).value) {
      var a, b := ClashShows(input, excluded, host);
    } else {
      forall a: Listing, b: Listing | Complete(a) && Complete(b)
        ensures Stream(input, excluded, Host(a, host.spell)) == Stream(input, excluded, Host(b, host.spell)) {
        SameFromHost(input, excluded, host, a);
        SameFromHost(input, excluded, host, b);
      }
    }
  }

  lemma SameFromHost(input: Input, excluded: Option<string>, host: Host, list: Listing)
    requires Complete(host.list) && Complete(list)
    requires Stream(input, excluded, host).Some? ==> NoClash(Collect(input, excluded, host).value)
    ensures Stream(input, excluded, Host(list, host.spell)) == Stream(input, excluded, host)
  {
    CollectAlike(input, excluded, host, Host(list, host.spell));
    if Stream(input, excluded, host).Some? { NoClashStreams(input, excluded, host, Host(list, host.spell)); }
  }
}
