/**
 The tree digest without its walk: which trees it accepts, which entries it hashes, and
 where every byte of the stream comes from.
 */
module TreeMeaning {
  import opened Wrappers
  import opened Ordering
  import opened Text
  import opened Framing
  import opened TreeModel
  import opened TreeRecords
  import opened TreeStream
  import opened TreeTheorems
  import opened ArchiveValidation
  import opened Components

  // ----- Bytes of a frame -----

  /** Eight bytes of length before the path, the type byte, eight bytes of length before the contents. */
  lemma FrameLayout(f: Framed)
    ensures var s, p := Frame(f), |f.path|;
            && |s| == 8 + p + 1 + 8 + |f.data|
            && s[..8] == BigEndian(p, 8) && s[8..8 + p] == f.path
            && s[8 + p] == f.kind
            && s[9 + p..17 + p] == BigEndian(|f.data|, 8) && s[17 + p..] == f.data
  {
    var s, p := Frame(f), |f.path|;
    assert s == BigEndian(p, 8) + (f.path + ([f.kind] + (BigEndian(|f.data|, 8) + f.data)));
  }

  /** The stream is the frames, first to last. */
  lemma {:induction false} FramesInOrder(a: seq<Framed>, b: seq<Framed>, f: Framed)
    ensures FrameAll(a + b) == FrameAll(a) + FrameAll(b) && FrameAll([f]) == Frame(f)
  {
    assert [f][1..] == [] && Frame(f) + [] == Frame(f);
    if a == [] {
      assert a + b == b;
    } else {
      assert (a + b)[1..] == a[1..] + b;
      FramesInOrder(a[1..], b, f);
    }
  }

  // ----- Text of paths, and of the manifest -----

  function Spelled(spell: string -> string, path: seq<string>): (parts: seq<string>)
    ensures |parts| == |path|
  {
    seq(|path|, i requires 0 <= i < |path| => spell(path[i]))
  }

  lemma {:induction false} JoinBack(parts: seq<string>, last: string)
    requires parts != []
    ensures Join(parts + [last], '/') == Join(parts, '/') + "/" + last
  {
    assert (parts + [last])[1..] == parts[1..] + [last];
    if |parts| > 1 {
      JoinBack(parts[1..], last);
    } else {
      assert Join([last], '/') == last;
    }
  }

  /** The walk spells every name and joins them with slashes. */
  lemma {:induction false} RelIsJoin(spell: string -> string, path: seq<string>)
    ensures Rel(spell, path) == Join(Spelled(spell, path), '/')
    decreases |path|
  {
    if |path| > 1 {
      var front, last := path[..|path| - 1], path[|path| - 1];
      RelIsJoin(spell, front);
      assert Spelled(spell, path) == Spelled(spell, front) + [spell(last)];
      JoinBack(Spelled(spell, front), spell(last));
    }
  }

  function Terminated(lines: seq<string>): string {
    if lines == [] then "" else lines[0] + "\n" + Terminated(lines[1..])
  }

  /** Every manifest line ends with a line feed. */
  lemma {:induction false} ManifestTextMeans(lines: seq<string>)
    ensures ManifestText(lines) == Terminated(lines)
  {
    if |lines| > 1 {
      ManifestTextMeans(lines[1..]);
      assert Join(lines, '\n') + "\n" == lines[0] + "\n" + (Join(lines[1..], '\n') + "\n");
    } else if |lines| == 1 {
      assert lines[0] + "\n" + Terminated([]) == lines[0] + "\n";
    }
  }

  /** The paths that normalization leaves as they are. */
  lemma NormalIff(line: string)
    ensures NormalizedPath(line) == Ok(line) <==> Portable(line) && !DriveLetter(line)
  {
    if NormalizedPath(line) == Ok(line) {
      NormalizedIsPortable(line);
      PortableIsItself(line);
      NormalizedOkIff(line);
    }
    if Portable(line) {
      PortableIsItself(line);
      PortableIsKept(line);
      DriveLetterIff(line);
    }
  }

  lemma PortableIsItself(line: string)
    requires Portable(line)
    ensures Slashed(line) == line && '\0' !in line
  {
    var parts := Split(line, '/');
    JoinSplit(line, '/');
    forall i, j | 0 <= i < |parts| && 0 <= j < |parts[i]| ensures parts[i][j] != '\\' && parts[i][j] != '\0' {
      assert PortablePart(parts[i]);
    }
    JoinAll(parts, '/', (c: char) => c != '\\' && c != '\0');
  }

  lemma PortableIsKept(line: string)
    requires Portable(line)
    ensures line != "" && line[0] != '/'
    ensures Kept(Split(line, '/')) == Split(line, '/') && ".." !in Split(line, '/')
    ensures Join(Split(line, '/'), '/') == line
  {
    var parts := Split(line, '/');
    forall i | 0 <= i < |parts| ensures parts[i] != "" && parts[i] != "." && parts[i] != ".." {
      assert PortablePart(parts[i]);
    }
    KeptStays(parts);
    JoinSplit(line, '/');
    assert parts[0] == line[..Find(line, '/')];
  }

  /** Exactly the accepted manifests: portable paths of files, one a line, in strict text order. */
  lemma ManifestOkIff(root: map<string, Node>, lines: seq<string>)
    ensures ManifestOk(root, lines)
            <==> && StrictlySorted(TextLe, lines)
                 && forall i :: 0 <= i < |lines| ==>
                      && Portable(lines[i]) && !DriveLetter(lines[i]) && '\n' !in lines[i]
                      && At(Dir(root), Split(lines[i], '/')).Some?
                      && At(Dir(root), Split(lines[i], '/')).value.File?
  {
    forall i | 0 <= i < |lines|
      ensures NormalizedPath(lines[i]) == Ok(lines[i]) <==> Portable(lines[i]) && !DriveLetter(lines[i])
    {
      NormalIff(lines[i]);
    }
    if forall k :: 0 < k < |lines| ==> lines[k - 1] != lines[k] && TextLe(lines[k - 1], lines[k]) {
      forall i, j | 0 <= i < j < |lines| ensures TextLe(lines[i], lines[j]) && lines[i] != lines[j] {
        AdjacentIncreasing(lines, i, j);
      }
    }
  }

  /** With an entry excluded, exactly the lines that do not name it or something inside it stay. */
  lemma {:induction false} RetainedMeans(entry: string, lines: seq<string>, line: string)
    requires '/' !in entry
    ensures line in WithoutInside(entry, lines) <==> line in lines && Split(line, '/')[0] != entry
    ensures StrictlySorted(TextLe, lines) ==> StrictlySorted(TextLe, WithoutInside(entry, lines))
    ensures Retained(None, Some(lines)) == Some(lines) && Retained(Some(entry), None).None?
    ensures Retained(Some(entry), Some(lines)) == Some(WithoutInside(entry, lines))
  {
    if StrictlySorted(TextLe, lines) { WithoutInsideIncreasing(entry, lines); }
    InsideIff(entry, line);
    KeptLine(entry, lines, line);
  }

  lemma {:induction false} KeptLine(entry: string, lines: seq<string>, line: string)
    ensures line in WithoutInside(entry, lines) <==> line in lines && !Inside(entry, line)
  {
    if lines != [] {
      KeptLine(entry, lines[1..], line);
      assert lines == [lines[0]] + lines[1..];
    }
  }

  lemma InsideIff(entry: string, line: string)
    requires '/' !in entry
    ensures Inside(entry, line) <==> Split(line, '/')[0] == entry
  {
    if Inside(entry, line) {
      if line != entry {
        var rest := line[|entry| + 1..];
        assert line == entry + ['/'] + rest by { assert line[..|entry| + 1] == entry + "/"; }
        FindIsFirst(entry, '/', rest);
      }
    } else {
      OutsideFirstPart(entry, line);
    }
  }

  // ----- Accepted trees and their entries -----

  /** A path of the tree whose root name is not left out: two names of the store's own, and the excluded one. */
  ghost predicate Seated(input: Input, excluded: Option<string>, spell: string -> string, q: seq<string>) {
    && q != [] && At(Dir(input.root), q).Some?
    && spell(q[0]) != ".tapid-tree" && spell(q[0]) != ".tapid-executable-modes" && excluded != Some(spell(q[0]))
  }

  lemma SeatedIff(input: Input, excluded: Option<string>, host: Host, q: seq<string>)
    ensures Seated(input, excluded, host.spell, q) <==> q != [] && At(Dir(Seen(input, excluded, host)), q).Some?
    ensures Seated(input, excluded, host.spell, q) ==>
              At(Dir(Seen(input, excluded, host)), q) == At(Dir(input.root), q)
  {
  }

  /** A directory, or a file that is executable exactly when the manifest, if there is one, lists it. */
  ghost predicate Hashable(input: Input, excluded: Option<string>, spell: string -> string, q: seq<string>)
    requires At(Dir(input.root), q).Some?
  {
    var node := At(Dir(input.root), q).value;
    || node.Dir?
    || (node.File? && (input.lines.None?
                       || (node.exec <==> Join(Spelled(spell, q), '/') in Retained(excluded, input.lines).value)))
  }

  lemma AcceptableIff(input: Input, excluded: Option<string>, host: Host, q: seq<string>)
    requires At(Dir(input.root), q).Some?
    ensures Acceptable(ViewOf(Retained(excluded, input.lines), excluded, host), q, At(Dir(input.root), q).value)
            <==> Hashable(input, excluded, host.spell, q)
  {
    RelIsJoin(host.spell, q);
  }

  /**
   A tree has a stream if and only if its manifest is accepted and every path of it, except
   below the names that are left out, is a directory or a file whose mode the manifest confirms.
   */
  lemma StreamExistsIff(input: Input, excluded: Option<string>, host: Host)
    requires Complete(host.list)
    ensures Stream(input, excluded, host).Some?
            <==> && (input.lines.Some? ==> ManifestOk(input.root, input.lines.value))
                 && forall q :: Seated(input, excluded, host.spell, q) ==> Hashable(input, excluded, host.spell, q)
  {
    var v := ViewOf(Retained(excluded, input.lines), excluded, host);
    var seen := Seen(input, excluded, host);
    WalkSucceedsIff(v, input.root);
    forall q
      ensures Seated(input, excluded, host.spell, q) <==> q != [] && At(Dir(seen), q).Some?
      ensures Seated(input, excluded, host.spell, q) ==>
                (Acceptable(v, q, At(Dir(seen), q).value) <==> Hashable(input, excluded, host.spell, q))
    {
      SeatedIff(input, excluded, host, q);
      if Seated(input, excluded, host.spell, q) { AcceptableIff(input, excluded, host, q); }
    }
  }

  /** The row of a path: its text, 1 for a directory, 2 for an executable file and 0 for any other. */
  function Row(spell: string -> string, q: seq<string>, node: Node): Framed {
    if node.File? then Framed(Join(Spelled(spell, q), '/'), if node.exec then 2 as char else 0 as char, node.data)
    else Framed(Join(Spelled(spell, q), '/'), 1 as char, [])
  }

  /** The manifest's own row, as text with type byte 3. */
  function ManifestRow(lines: seq<string>): Framed {
    Framed(".tapid-executable-modes", 3 as char, Terminated(lines))
  }

  /** Path text first, then type byte; the first difference of the texts decides. */
  ghost predicate InOrder(rows: seq<Framed>) {
    forall i, j :: 0 <= i < j < |rows| ==>
      if rows[i].path == rows[j].path then rows[i].kind <= rows[j].kind else TextLe(rows[i].path, rows[j].path)
  }

  /** One row for each seated path, and one for the manifest. */
  ghost predicate Covers(input: Input, excluded: Option<string>, spell: string -> string, rows: seq<Framed>) {
    exists paths: seq<seq<string>> ::
      && (forall i, j :: 0 <= i < j < |paths| ==> paths[i] != paths[j])
      && (forall q :: q in paths <==> Seated(input, excluded, spell, q))
      && multiset(rows) == multiset(RowsAt(input, spell, paths))
                           + (if input.lines.Some? then multiset{ManifestRow(Retained(excluded, input.lines).value)}
                              else multiset{})
  }

  function RowsAt(input: Input, spell: string -> string, paths: seq<seq<string>>): (rows: seq<Framed>)
    ensures |rows| == |paths|
  {
    seq(|paths|, i requires 0 <= i < |paths| =>
      if At(Dir(input.root), paths[i]).Some? then Row(spell, paths[i], At(Dir(input.root), paths[i]).value)
      else Framed("", 0 as char, []))
  }

  /**
   What is hashed: one row for every path that is not left out and one for the manifest, in
   the order of path text and type byte, frame after frame.
   */
  lemma StreamMeans(input: Input, excluded: Option<string>, host: Host) returns (rows: seq<Framed>)
    requires Complete(host.list) && Stream(input, excluded, host).Some?
    ensures Covers(input, excluded, host.spell, rows) && InOrder(rows)
    ensures Stream(input, excluded, host) == Some(FrameAll(rows))
  {
    var entries := Collect(input, excluded, host).value;
    rows := Sort(FramedLe, entries);
    SortedRows(entries);
    EntriesCover(input, excluded, host, entries, rows);
  }

  lemma SortedRows(entries: seq<Framed>)
    ensures InOrder(Sort(FramedLe, entries))
  {
    FramedOrder();
    SortSorted(FramedLe, entries);
    RanksInOrder(Sort(FramedLe, entries));
  }

  lemma RanksInOrder(rows: seq<Framed>)
    requires Sorted(FramedLe, rows)
    ensures InOrder(rows)
  {
    forall i, j | 0 <= i < j < |rows|
      ensures if rows[i].path == rows[j].path then rows[i].kind <= rows[j].kind
              else TextLe(rows[i].path, rows[j].path)
    {
      assert FramedLe(rows[i], rows[j]);
    }
  }

  lemma EntriesCover(input: Input, excluded: Option<string>, host: Host, entries: seq<Framed>, rows: seq<Framed>)
    requires Complete(host.list) && Collect(input, excluded, host) == Some(entries)
    requires multiset(rows) == multiset(entries)
    ensures Covers(input, excluded, host.spell, rows)
  {
    var records := Records(input, excluded, host).value;
    WalkDistinct(ViewOf(Retained(excluded, input.lines), excluded, host), input.root);
    PathsAreSeated(input, excluded, host, records);
    RecordsAreRows(input, excluded, host, records);
    ManifestIsRow(input, excluded);
    assert entries == ShownAll(host.spell, records) + ManifestEntries(Retained(excluded, input.lines));
    RowsCover(input, excluded, host.spell, PathsOf(records), rows);
  }

  lemma RowsCover(input: Input, excluded: Option<string>, spell: string -> string, paths: seq<seq<string>>,
                  rows: seq<Framed>)
    requires forall i, j :: 0 <= i < j < |paths| ==> paths[i] != paths[j]
    requires forall q :: q in paths <==> Seated(input, excluded, spell, q)
    requires multiset(rows) == multiset(RowsAt(input, spell, paths))
                               + multiset(ManifestEntries(Retained(excluded, input.lines)))
    ensures Covers(input, excluded, spell, rows)
  {
    ManifestIsRow(input, excluded);
  }

  lemma ManifestIsRow(input: Input, excluded: Option<string>)
    ensures multiset(ManifestEntries(Retained(excluded, input.lines)))
            == if input.lines.Some? then multiset{ManifestRow(Retained(excluded, input.lines).value)} else multiset{}
  {
    if input.lines.Some? { ManifestTextMeans(Retained(excluded, input.lines).value); }
  }

  function PathsOf(records: seq<Record>): (paths: seq<seq<string>>)
    ensures |paths| == |records| && forall i :: 0 <= i < |records| ==> paths[i] == records[i].path
  {
    seq(|records|, i requires 0 <= i < |records| => records[i].path)
  }

  lemma PathsAreSeated(input: Input, excluded: Option<string>, host: Host, records: seq<Record>)
    requires Complete(host.list) && Records(input, excluded, host) == Some(records)
    ensures forall q :: q in PathsOf(records) <==> Seated(input, excluded, host.spell, q)
  {
    var v := ViewOf(Retained(excluded, input.lines), excluded, host);
    var seen := Seen(input, excluded, host);
    forall q ensures q in PathsOf(records) <==> Seated(input, excluded, host.spell, q) {
      SeatedIff(input, excluded, host, q);
      if q in PathsOf(records) {
        var i :| 0 <= i < |records| && records[i].path == q;
        WalkRecords(v, input.root, records[i]);
      }
      if Seated(input, excluded, host.spell, q) {
        var r := RecordOf(q, At(Dir(seen), q).value);
        WalkRecords(v, input.root, r);
        var i :| 0 <= i < |records| && records[i] == r;
        assert PathsOf(records)[i] == q;
      }
    }
  }

  lemma RecordsAreRows(input: Input, excluded: Option<string>, host: Host, records: seq<Record>)
    requires Complete(host.list) && Records(input, excluded, host) == Some(records)
    ensures ShownAll(host.spell, records) == RowsAt(input, host.spell, PathsOf(records))
  {
    var v := ViewOf(Retained(excluded, input.lines), excluded, host);
    forall i | 0 <= i < |records|
      ensures ShownAll(host.spell, records)[i] == RowsAt(input, host.spell, PathsOf(records))[i]
    {
      WalkRecords(v, input.root, records[i]);
      WalkIsPlain(v, input.root);
      SeatedIff(input, excluded, host, records[i].path);
      RelIsJoin(host.spell, records[i].path);
    }
  }
}
