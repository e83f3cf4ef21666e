/**
 Archive validation as one judgement on the whole archive: which sequences of reports are
 accepted, stated on the entries together instead of one after another.
 */
module ArchiveMeaning {
  import opened Wrappers
  import opened Text
  import opened Components
  import opened ArchiveValidation

  // ----- One entry -----

  /** A file within its limit or an empty directory, with a short path that has a normal form. */
  ghost predicate Plain(limits: Limits, entry: ArchiveEntry) {
    && |entry.path| <= limits.maxPathBytes
    && NormalizedPath(entry.path).Ok?
    && ((entry.kind == File && entry.size <= limits.maxEntrySize) || (entry.kind == Directory && entry.size == 0))
  }

  /** The raw target is relative, and walking it from the link's directory stays inside the root. */
  ghost predicate StaysInside(path: string, target: string) {
    && '\0' !in target && Relative(target)
    && Land(Split(path, '/')[..|Split(path, '/')| - 1], Split(Slashed(target), '/')).Some?
  }

  lemma NonEmptyStays(parts: seq<string>)
    requires forall i :: 0 <= i < |parts| ==> parts[i] != ""
    ensures NonEmpty(parts) == parts
  {
    if parts != [] { NonEmptyStays(parts[1..]); }
  }

  /** The directory of a link is its path without the last component. */
  lemma LinkDirectoryOf(path: string)
    requires Portable(path)
    ensures LinkDirectory(path) == Split(path, '/')[..|Split(path, '/')| - 1]
  {
    var parts := Split(path, '/');
    JoinSplit(path, '/');
    forall i, j | 0 <= i < |parts| && 0 <= j < |parts[i]| ensures parts[i][j] != '\\' {
      assert PortablePart(parts[i]);
    }
    JoinAll(parts, '/', (c: char) => c != '\\');
    assert Slashed(path) == path;
    NonEmptyStays(parts);
  }

  lemma RelativeTargetIff(target: string)
    ensures RelativeTarget(Slashed(target)) <==> '\0' !in target && Relative(target)
  {
    DriveLetterIff(Slashed(target));
    if '\0' in target {
      var i :| 0 <= i < |target| && target[i] == '\0';
      assert Slashed(target)[i] == '\0';
    }
    if '\0' in Slashed(target) {
      var i :| 0 <= i < |target| && Slashed(target)[i] == '\0';
      assert target[i] == '\0';
    }
  }

  /** What each kind of entry has to satisfy under a normalized path. */
  lemma KindOkIff(limits: Limits, entry: ArchiveEntry, path: string)
    requires Portable(path)
    ensures KindOk(limits, entry, path)
            <==> || (entry.kind == File && entry.size <= limits.maxEntrySize)
                 || (entry.kind == Directory && entry.size == 0)
                 || (entry.kind == Symlink && entry.target.Some? && StaysInside(path, entry.target.value))
  {
    LinkDirectoryOf(path);
    if entry.target.Some? { RelativeTargetIff(entry.target.value); }
  }

  // ----- The whole archive -----

  /** The reports before the end. */
  function Before(reports: seq<Report>): seq<Report> {
    if reports == [] || reports[0] == End then [] else [reports[0]] + Before(reports[1..])
  }

  function EntriesOf(reports: seq<Report>): seq<ArchiveEntry> {
    if reports == [] then []
    else (if reports[0].Next? then [reports[0].entry] else []) + EntriesOf(reports[1..])
  }

  function Comments(reports: seq<Report>): nat {
    if reports == [] then 0 else (if reports[0] == Comment then 1 else 0) + Comments(reports[1..])
  }

  /** Bytes of all files. */
  function FileBytes(entries: seq<ArchiveEntry>): nat {
    if entries == [] then 0
    else (if entries[0].kind == File then entries[0].size else 0) + FileBytes(entries[1..])
  }

  function Names(entries: seq<ArchiveEntry>): (names: seq<string>)
    ensures |names| == |entries|
  {
    if entries == [] then []
    else [if NormalizedPath(entries[0].path).Ok? then NormalizedPath(entries[0].path).value else ""]
         + Names(entries[1..])
  }

  /** No two names are spelled alike up to ASCII case. */
  ghost predicate FoldedApart(names: seq<string>) {
    forall i, j :: 0 <= i < j < |names| ==> LowerText(names[i]) != LowerText(names[j])
  }

  /** Entries that may follow what has been accepted. */
  ghost predicate Fit(limits: Limits, accepted: seq<string>, total: nat, entries: seq<ArchiveEntry>) {
    && (forall i :: 0 <= i < |entries| ==> Plain(limits, entries[i]))
    && |accepted| + |entries| <= limits.maxEntries
    && total + FileBytes(entries) <= limits.maxTotalSize
    && FoldedApart(accepted + Names(entries))
  }

  /** None broken, and no second comment. */
  ghost predicate Clean(reports: seq<Report>, commentSeen: bool) {
    Broken !in reports && Comments(reports) + (if commentSeen then 1 else 0) <= 1
  }

  lemma ApartNext(accepted: seq<string>, name: string)
    requires FoldedApart(accepted)
    ensures FoldedApart(accepted + [name])
            <==> forall i :: 0 <= i < |accepted| ==> LowerText(accepted[i]) != LowerText(name)
  {
    var grown := accepted + [name];
    assert grown[|accepted|] == name;
    assert forall i :: 0 <= i < |accepted| ==> grown[i] == accepted[i];
  }

  lemma ApartPrefix(accepted: seq<string>, more: seq<string>)
    requires FoldedApart(accepted + more)
    ensures FoldedApart(accepted)
  {
    assert forall i :: 0 <= i < |accepted| ==> (accepted + more)[i] == accepted[i];
  }

  /** Judging the first entry and then the rest is judging them together. */
  lemma FitNext(limits: Limits, accepted: seq<string>, total: nat, entries: seq<ArchiveEntry>)
    requires entries != [] && FoldedApart(accepted)
    ensures var e := entries[0];
            Fit(limits, accepted, total, entries)
            <==> && Admits(limits, accepted, total, e) && e.kind != Symlink
                 && Fit(limits, accepted + [NormalizedPath(e.path).value], total + Payload(e), entries[1..])
  {
    var e := entries[0];
    assert entries == [e] + entries[1..];
    if NormalizedPath(e.path).Ok? {
      NamesNext(accepted, e, entries[1..]);
      ApartFirst(accepted, NormalizedPath(e.path).value, Names(entries[1..]));
    }
  }

  lemma ApartFirst(accepted: seq<string>, name: string, more: seq<string>)
    requires FoldedApart(accepted)
    ensures FoldedApart(accepted + [name] + more) ==>
              forall i :: 0 <= i < |accepted| ==> LowerText(accepted[i]) != LowerText(name)
  {
    ApartNext(accepted, name);
    if FoldedApart(accepted + [name] + more) { ApartPrefix(accepted + [name], more); }
  }

  lemma CleanNext(first: Report, rest: seq<Report>, seen: bool)
    ensures Clean([first] + rest, seen)
            <==> first != Broken && !(first == Comment && seen) && Clean(rest, seen || first == Comment)
  {
    assert ([first] + rest)[1..] == rest;
    assert Comments([first] + rest) == (if first == Comment then 1 else 0) + Comments(rest);
    assert Broken in [first] + rest <==> first == Broken || Broken in rest;
  }

  /** The reports and what has been accepted before them are judged together. */
  ghost predicate Together(limits: Limits, reports: seq<Report>, p: Progress) {
    var entries := EntriesOf(Before(reports));
    && (Accepts(limits, reports, p).Some?
        <==> Clean(Before(reports), p.commentSeen) && Fit(limits, p.accepted, p.total, entries))
    && (Accepts(limits, reports, p).Some? ==> Accepts(limits, reports, p).value == p.accepted + Names(entries))
  }

  ghost predicate Reached(limits: Limits, p: Progress) {
    FoldedApart(p.accepted) && |p.accepted| <= limits.maxEntries && p.total <= limits.maxTotalSize
  }

  lemma EntriesNext(first: Report, rest: seq<Report>)
    ensures EntriesOf([first] + rest) == if first.Next? then [first.entry] + EntriesOf(rest) else EntriesOf(rest)
  {
    assert ([first] + rest)[1..] == rest;
  }

  lemma {:induction false} AcceptsFrom(limits: Limits, reports: seq<Report>, p: Progress)
    requires Reached(limits, p)
    ensures Together(limits, reports, p)
    decreases |reports|
  {
    if reports == [] || reports[0] == End {
      assert p.accepted + Names([]) == p.accepted;
    } else {
      var first := reports[0];
      if first == Comment && !p.commentSeen {
        AcceptsFrom(limits, reports[1..], p.(commentSeen := true));
        CommentStep(limits, reports, p);
      } else if first.Next? && Judge(limits, first, p).Some? {
        ApartNext(p.accepted, NormalizedPath(first.entry.path).value);
        AcceptsFrom(limits, reports[1..], Judge(limits, first, p).value);
        NextStep(limits, reports, p);
      } else {
        Refused(limits, reports, p);
      }
    }
  }

  lemma CommentStep(limits: Limits, reports: seq<Report>, p: Progress)
    requires reports != [] && reports[0] == Comment && !p.commentSeen
    requires Together(limits, reports[1..], p.(commentSeen := true))
    ensures Together(limits, reports, p)
  {
    var rest := Before(reports[1..]);
    assert Before(reports) == [Comment] + rest;
    CleanNext(Comment, rest, false);
    EntriesNext(Comment, rest);
  }

  lemma NextStep(limits: Limits, reports: seq<Report>, p: Progress)
    requires Reached(limits, p) && reports != [] && reports[0].Next? && Judge(limits, reports[0], p).Some?
    requires Together(limits, reports[1..], Judge(limits, reports[0], p).value)
    ensures Together(limits, reports, p)
  {
    var e, rest := reports[0].entry, Before(reports[1..]);
    assert Before(reports) == [reports[0]] + rest;
    CleanNext(reports[0], rest, p.commentSeen);
    EntriesNext(reports[0], rest);
    FitNext(limits, p.accepted, p.total, [e] + EntriesOf(rest));
    assert ([e] + EntriesOf(rest))[1..] == EntriesOf(rest);
    NamesNext(p.accepted, e, EntriesOf(rest));
  }

  lemma Refused(limits: Limits, reports: seq<Report>, p: Progress)
    requires Reached(limits, p) && reports != [] && reports[0] != End && Judge(limits, reports[0], p).None?
    ensures Together(limits, reports, p)
  {
    var first, rest := reports[0], Before(reports[1..]);
    assert Before(reports) == [first] + rest;
    CleanNext(first, rest, p.commentSeen);
    if first.Next? {
      EntriesNext(first, rest);
      FitNext(limits, p.accepted, p.total, [first.entry] + EntriesOf(rest));
    }
  }

  lemma NamesNext(accepted: seq<string>, e: ArchiveEntry, entries: seq<ArchiveEntry>)
    requires NormalizedPath(e.path).Ok?
    ensures accepted + [NormalizedPath(e.path).value] + Names(entries) == accepted + Names([e] + entries)
  {
    assert ([e] + entries)[1..] == entries;
  }

  /**
   An archive is accepted if and only if, up to the end, nothing is broken, at most one comment
   appears, every entry is a plain file or an empty directory, and all of them together keep to
   the number of entries and to the total size and stay apart up to case. The accepted paths
   are the normal forms, in order.
   */
  lemma AcceptsIff(limits: Limits, reports: seq<Report>)
    ensures var entries := EntriesOf(Before(reports));
            && (Accepts(limits, reports, Progress([], 0, false)).Some?
                <==> && Broken !in Before(reports) && Comments(Before(reports)) <= 1
                     && (forall i :: 0 <= i < |entries| ==> Plain(limits, entries[i]))
                     && |entries| <= limits.maxEntries && FileBytes(entries) <= limits.maxTotalSize
                     && FoldedApart(Names(entries)))
            && (Accepts(limits, reports, Progress([], 0, false)).Some? ==>
                  Accepts(limits, reports, Progress([], 0, false)).value == Names(entries))
  {
    AcceptsFrom(limits, reports, Progress([], 0, false));
    assert [] + Names(EntriesOf(Before(reports))) == Names(EntriesOf(Before(reports)));
  }

  lemma {:induction false} NamesAre(entries: seq<ArchiveEntry>, i: nat)
    requires i < |entries| && NormalizedPath(entries[i].path).Ok?
    ensures Names(entries)[i] == NormalizedPath(entries[i].path).value
  {
    if i > 0 { NamesAre(entries[1..], i - 1); }
  }
}
