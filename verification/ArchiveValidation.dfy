/**
 Archive validation of crates/tapid-archive/src/lib.rs: portable paths, the entry
 validator, and the budget that bounds what a tar parser can make it read.
 */
module ArchiveValidation {
  import opened Wrappers
  import opened Text
  import opened Components
  import opened Framing

  // ----- Paths -----

  datatype ValidationError =
    | TooManyEntries | EntryTooLarge | TotalSizeExceeded | PathTooLong | AbsolutePath | Traversal
    | InvalidPath | DuplicatePath | CaseCollision | SpecialFile | SymlinkEscape

  predicate HasDrivePrefix(s: string) {
    |s| > 1 && s[1] == ':' && ('a' <= s[0] <= 'z' || 'A' <= s[0] <= 'Z')
  }

  /** `normalized_path`. */
  function NormalizedPath(value: string): Result<string, ValidationError> {
    if value == "" || '\0' in value then Err(InvalidPath)
    else
      var text := Slashed(value);
      if text[0] == '/' || HasDrivePrefix(text) then Err(AbsolutePath)
      else
        var parts := Kept(Split(text, '/'));
        if ".." in parts then Err(Traversal)
        else if parts == [] then Err(InvalidPath)
        else Ok(Join(parts, '/'))
  }

  predicate PortablePart(part: string) {
    part != "" && part != "." && part != ".." && '/' !in part && '\\' !in part && '\0' !in part
  }

  /** Every component is a plain file name. */
  ghost predicate Portable(path: string) {
    forall i :: 0 <= i < |Split(path, '/')| ==> PortablePart(Split(path, '/')[i])
  }

  /** An accepted path has no empty, `.` or `..` component and no foreign separator. */
  lemma NormalizedIsPortable(value: string)
    requires NormalizedPath(value).Ok?
    ensures Portable(NormalizedPath(value).value)
  {
    var text := Slashed(value);
    var all, parts := Split(text, '/'), Kept(Split(text, '/'));
    JoinSplit(text, '/');
    forall i | 0 <= i < |text| ensures text[i] != '\\' && text[i] != '\0' { assert value[i] != '\0'; }
    SplitChars(text, '/', (c: char) => c != '\\' && c != '\0');
    forall i | 0 <= i < |parts| ensures PortablePart(parts[i]) {
      var k :| 0 <= k < |all| && all[k] == parts[i];
      assert forall j :: 0 <= j < |all[k]| ==> all[k][j] != '\\' && all[k][j] != '\0';
      assert parts[i] in parts;
    }
    SplitJoin(parts, '/');
  }

  /** A letter and a colon at the front. */
  ghost predicate DriveLetter(s: string) {
    exists c, rest :: s == [c, ':'] + rest && ('a' <= c <= 'z' || 'A' <= c <= 'Z')
  }

  lemma DriveLetterIff(s: string)
    ensures HasDrivePrefix(s) <==> DriveLetter(s)
  {
    if HasDrivePrefix(s) { assert s == [s[0], ':'] + s[2..]; }
  }

  /** Relative under either separator, and on no drive. */
  ghost predicate Relative(value: string) {
    value != "" && value[0] != '/' && value[0] != '\\' && !DriveLetter(Slashed(value))
  }

  /** Exactly the paths that are accepted, and why the others are not. */
  lemma NormalizedOkIff(value: string)
    ensures var parts := Split(Slashed(value), '/');
            && (NormalizedPath(value).Ok?
                <==> '\0' !in value && Relative(value) && ".." !in parts && HasRealPart(parts))
            && (NormalizedPath(value) == Err(InvalidPath)
                <==> value == "" || '\0' in value || (Relative(value) && ".." !in parts && !HasRealPart(parts)))
            && (NormalizedPath(value) == Err(AbsolutePath)
                <==> value != "" && '\0' !in value && !Relative(value))
            && (NormalizedPath(value) == Err(Traversal)
                <==> '\0' !in value && Relative(value) && ".." in parts)
  {
    var parts := Split(Slashed(value), '/');
    DriveLetterIff(Slashed(value));
    KeptElements(parts, "..");
    if ".." !in parts { KeptIsEmptyIff(parts); }
  }

  /** Walking the raw path from the root passes exactly the components of the normalized one. */
  lemma NormalizedIsWalk(value: string)
    requires NormalizedPath(value).Ok?
    ensures Land([], Split(Slashed(value), '/')) == Some(Split(NormalizedPath(value).value, '/'))
  {
    var parts := Split(Slashed(value), '/');
    KeptElements(parts, "..");
    LandKept([], parts);
    assert [] + Kept(parts) == Kept(parts);
    JoinSplit(Slashed(value), '/');
    forall i | 0 <= i < |Kept(parts)| ensures '/' !in Kept(parts)[i] {
      var k :| 0 <= k < |parts| && parts[k] == Kept(parts)[i];
    }
    SplitJoin(Kept(parts), '/');
  }

  // ----- Symbolic links -----

  predicate RelativeTarget(target: string) {
    target != "" && '\0' !in target && target[0] != '/' && !HasDrivePrefix(target)
  }

  /** The directory that contains a link. */
  function LinkDirectory(link: string): seq<string> {
    var parts := NonEmpty(Split(Slashed(link), '/'));
    if parts == [] then [] else parts[..|parts| - 1]
  }

  function NonEmpty(parts: seq<string>): seq<string> {
    if parts == [] then []
    else (if parts[0] == "" then [] else [parts[0]]) + NonEmpty(parts[1..])
  }

  method CountNonEmpty(parts: seq<string>) returns (n: nat)
    ensures n == |NonEmpty(parts)|
  {
    n := 0;
    var i := 0;
    while i < |parts|
      invariant 0 <= i <= |parts|
      invariant |NonEmpty(parts)| == n + |NonEmpty(parts[i..])|
    {
      assert parts[i..][0] == parts[i] && parts[i..][1..] == parts[i + 1..];
      if parts[i] != "" { n := n + 1; }
      i := i + 1;
    }
  }

  /** `symlink_target_escapes`: counting levels decides exactly whether the walk leaves the root. */
  method SymlinkTargetEscapes(link: string, target: string) returns (escapes: bool)
    ensures escapes <==> !(RelativeTarget(Slashed(target))
                           && Land(LinkDirectory(link), Split(Slashed(target), '/')).Some?)
  {
    var text := Slashed(target);
    if !RelativeTarget(text) { return true; }
    var count := CountNonEmpty(Split(Slashed(link), '/'));
    var depth := if count == 0 then 0 else count - 1;
    var parts := Split(text, '/');
    ghost var directory := LinkDirectory(link);
    var i := 0;
    while i < |parts|
      invariant 0 <= i <= |parts|
      invariant depth == |directory|
      invariant Land(LinkDirectory(link), parts).Some? <==> Land(directory, parts[i..]).Some?
    {
      assert parts[i..][0] == parts[i] && parts[i..][1..] == parts[i + 1..];
      if parts[i] == "" || parts[i] == "." {
      } else if parts[i] == ".." {
        if depth == 0 { return true; }
        depth := depth - 1;
        directory := directory[..|directory| - 1];
      } else {
        depth := depth + 1;
        directory := directory + [parts[i]];
      }
      i := i + 1;
    }
    return false;
  }

  // ----- The entry validator -----

  datatype EntryKind = File | Directory | Symlink | Hardlink | Other
  datatype ArchiveEntry = ArchiveEntry(path: string, kind: EntryKind, size: nat, target: Option<string>)
  datatype Limits = Limits(maxEntries: nat, maxEntrySize: nat, maxTotalSize: nat, maxPathBytes: nat)

  /** Accepted paths are portable and pairwise distinct even when case is ignored. */
  ghost predicate DistinctPaths(paths: seq<string>) {
    && (forall i :: 0 <= i < |paths| ==> Portable(paths[i]))
    && (forall i, j :: 0 <= i < j < |paths| ==> LowerText(paths[i]) != LowerText(paths[j]))
  }

  /** Bytes of payload that an entry adds to the total. */
  function Payload(entry: ArchiveEntry): nat { if entry.kind == File then entry.size else 0 }

  /** A bounded file, an empty directory, or a link that stays inside the root. */
  predicate KindOk(limits: Limits, entry: ArchiveEntry, path: string) {
    match entry.kind
    case File => entry.size <= limits.maxEntrySize
    case Directory => entry.size == 0
    case Symlink => entry.target.Some? && RelativeTarget(Slashed(entry.target.value))
                    && Land(LinkDirectory(path), Split(Slashed(entry.target.value), '/')).Some?
    case Hardlink => false
    case Other => false
  }

  /** The entry may follow the accepted ones. */
  predicate Admits(limits: Limits, accepted: seq<string>, total: nat, entry: ArchiveEntry) {
    && |accepted| < limits.maxEntries
    && |entry.path| <= limits.maxPathBytes
    && NormalizedPath(entry.path).Ok?
    && (forall i :: 0 <= i < |accepted| ==> LowerText(accepted[i]) != LowerText(NormalizedPath(entry.path).value))
    && KindOk(limits, entry, NormalizedPath(entry.path).value)
    && total + Payload(entry) <= limits.maxTotalSize
  }

  /** There is room for the entry, and its path has a normal form. */
  predicate NamesNormally(limits: Limits, accepted: seq<string>, entry: ArchiveEntry) {
    |accepted| < limits.maxEntries && |entry.path| <= limits.maxPathBytes && NormalizedPath(entry.path).Ok?
  }

  /** Some accepted path has the same spelling up to case. */
  ghost predicate TakenFolded(accepted: seq<string>, path: string) {
    exists i :: 0 <= i < |accepted| && LowerText(accepted[i]) == LowerText(path)
  }

  class EntryValidator {
    const limits: Limits
    var count: nat
    var total: nat
    var exact: set<string>
    var folded: set<string>
    var accepted: seq<string>

    ghost predicate Valid()
      reads this
    {
      && count == |accepted| <= limits.maxEntries
      && total <= limits.maxTotalSize
      && exact == (set i | 0 <= i < |accepted| :: accepted[i])
      && folded == (set i | 0 <= i < |accepted| :: LowerText(accepted[i]))
      && DistinctPaths(accepted)
    }

    constructor (limits: Limits)
      ensures this.limits == limits && Valid() && accepted == [] && total == 0
    {
      this.limits := limits;
      count, total, exact, folded, accepted := 0, 0, {}, {}, [];
    }

    /** Accepts exactly the admissible entries; after an error the validator is discarded. */
    method Push(entry: ArchiveEntry) returns (r: Option<ValidationError>)
      requires Valid()
      modifies this
      ensures r.None? <==> Admits(limits, old(accepted), old(total), entry)
      ensures r.None? ==> Valid() && accepted == old(accepted) + [NormalizedPath(entry.path).value]
      ensures r.None? ==> total == old(total) + Payload(entry)
      ensures r == Some(TooManyEntries) <==> |old(accepted)| >= limits.maxEntries
      ensures r == Some(PathTooLong) <==> |old(accepted)| < limits.maxEntries && |entry.path| > limits.maxPathBytes
      ensures r == Some(DuplicatePath) <==> NamesNormally(limits, old(accepted), entry)
                                            && NormalizedPath(entry.path).value in old(accepted)
      ensures r == Some(CaseCollision) <==> NamesNormally(limits, old(accepted), entry)
                                            && NormalizedPath(entry.path).value !in old(accepted)
                                            && TakenFolded(old(accepted), NormalizedPath(entry.path).value)
      ensures NamesNormally(limits, old(accepted), entry)
              && !TakenFolded(old(accepted), NormalizedPath(entry.path).value) ==>
                if KindOk(limits, entry, NormalizedPath(entry.path).value)
                then r == if old(total) + Payload(entry) > limits.maxTotalSize then Some(TotalSizeExceeded) else None
                else r == Some(match entry.kind
                               case File => EntryTooLarge
                               case Directory => EntryTooLarge
                               case Symlink => if entry.target.None? then InvalidPath else SymlinkEscape
                               case Hardlink => SpecialFile
                               case Other => SpecialFile)
    {
      count := count + 1;
      if count > limits.maxEntries { return Some(TooManyEntries); }
      if |entry.path| > limits.maxPathBytes { return Some(PathTooLong); }
      var normal := NormalizedPath(entry.path);
      if normal.Err? { return Some(normal.error); }
      var path := normal.value;
      if path in exact { return Some(DuplicatePath); }
      exact := exact + {path};
      if LowerText(path) in folded { return Some(CaseCollision); }
      folded := folded + {LowerText(path)};
      var rejected := CheckKind(entry, path);
      if rejected.Some? { return rejected; }
      total := total + Payload(entry);
      if total > limits.maxTotalSize { return Some(TotalSizeExceeded); }
      NormalizedIsPortable(entry.path);
      AcceptedGrows(accepted, path);
      accepted := accepted + [path];
      return None;
    }

    method CheckKind(entry: ArchiveEntry, path: string) returns (r: Option<ValidationError>)
      ensures r.None? <==> KindOk(limits, entry, path)
      ensures r.Some? ==> r.value == match entry.kind
                                     case File => EntryTooLarge
                                     case Directory => EntryTooLarge
                                     case Symlink => if entry.target.None? then InvalidPath else SymlinkEscape
                                     case Hardlink => SpecialFile
                                     case Other => SpecialFile
    {
      match entry.kind
      case File => return if entry.size > limits.maxEntrySize then Some(EntryTooLarge) else None;
      case Directory => return if entry.size != 0 then Some(EntryTooLarge) else None;
      case Symlink =>
        if entry.target.None? { return Some(InvalidPath); }
        var escapes := SymlinkTargetEscapes(path, entry.target.value);
        return if escapes then Some(SymlinkEscape) else None;
      case Hardlink => return Some(SpecialFile);
      case Other => return Some(SpecialFile);
    }
  }

  lemma AcceptedGrows(accepted: seq<string>, path: string)
    requires DistinctPaths(accepted) && Portable(path)
    requires LowerText(path) !in (set i | 0 <= i < |accepted| :: LowerText(accepted[i]))
    ensures var grown := accepted + [path];
            && DistinctPaths(grown)
            && (set i | 0 <= i < |grown| :: grown[i]) == (set i | 0 <= i < |accepted| :: accepted[i]) + {path}
            && (set i | 0 <= i < |grown| :: LowerText(grown[i]))
               == (set i | 0 <= i < |accepted| :: LowerText(accepted[i])) + {LowerText(path)}
  {
    var grown := accepted + [path];
    assert grown[|accepted|] == path;
    assert forall i :: 0 <= i < |accepted| ==> grown[i] == accepted[i];
    forall i | 0 <= i < |accepted| ensures LowerText(accepted[i]) != LowerText(path) {}
  }

  // ----- The read budget -----

  const METADATA_LIMIT: nat := 65536
  const U64_MAX: nat := 0xFFFF_FFFF_FFFF_FFFF

  /** A read that the parser asks for, and how many bytes the source could supply. */
  datatype ReadRequest = ReadRequest(buffer: nat, available: nat)

  /** `ParserBudgetReader`: charges decompressed bytes against the current budget. */
  class BudgetReader {
    var remaining: nat
    var consumed: nat

    constructor ()
      ensures remaining == METADATA_LIMIT && consumed == 0
    {
      remaining, consumed := METADATA_LIMIT, 0;
    }

    /** None when the budget is exhausted. Bytes read and budget left always add up. */
    method Read(request: ReadRequest) returns (count: Option<nat>)
      modifies this
      ensures consumed + remaining == old(consumed + remaining) && consumed >= old(consumed)
      ensures count.Some? ==> consumed == old(consumed) + count.value
                              && count.value == Least(request.buffer, Least(old(remaining), request.available))
      ensures count.None? <==> request.buffer > 0 && old(remaining) == 0
    {
      if request.buffer == 0 { return Some(0); }
      if remaining == 0 { return None; }
      var limit := Least(request.buffer, remaining);
      var n := Least(limit, request.available);
      remaining := remaining - n;
      consumed := consumed + n;
      return Some(n);
    }

    /** Any sequence of reads, whatever the parser does with their results. */
    method ReadAll(requests: seq<ReadRequest>)
      modifies this
      ensures consumed + remaining == old(consumed + remaining) && consumed >= old(consumed)
    {
      for i := 0 to |requests|
        invariant consumed + remaining == old(consumed + remaining) && consumed >= old(consumed)
      {
        var _ := Read(requests[i]);
      }
    }

    /** One turn of the validation loop: a new budget, the advance, then reads of the entry. */
    method Serve(budget: nat, before: seq<ReadRequest>, after: seq<ReadRequest>)
      modifies this
      ensures old(consumed) <= consumed && consumed + remaining == old(consumed) + budget
    {
      remaining := budget;
      ReadAll(before);
      ReadAll(after);
    }
  }

  /** What the parser reports when it advances; `Comment` is a global commit comment. */
  datatype Report = End | Broken | Comment | Next(entry: ArchiveEntry)

  /** One advance of an adversarial parser: any reads, then any report, then any reads. */
  datatype Advance = Advance(before: seq<ReadRequest>, report: Report, after: seq<ReadRequest>)

  /** Most decompressed bytes that validation can be made to read. */
  function ReadBound(limits: Limits): nat {
    limits.maxTotalSize + METADATA_LIMIT * (limits.maxEntries + 2)
  }

  /** The payload limit, and 64 KiB for every entry, for one comment and for the end. */
  lemma ReadBoundIs(limits: Limits)
    ensures ReadBound(limits) == limits.maxTotalSize + (limits.maxEntries + 1 + 1) * (64 * 1024)
  {
  }

  function SaturatingAdd(a: nat, b: nat): (r: nat)
    ensures r <= a + b
  {
    if a + b > U64_MAX then U64_MAX else a + b
  }

  /** What validation has accepted so far. */
  datatype Progress = Progress(accepted: seq<string>, total: nat, commentSeen: bool)

  /** At most one comment, and every entry an admissible file or directory. */
  function Judge(limits: Limits, report: Report, p: Progress): Option<Progress>
    requires report != End
  {
    match report
    case Broken => None
    case Comment => if p.commentSeen then None else Some(p.(commentSeen := true))
    case Next(entry) =>
      if !Admits(limits, p.accepted, p.total, entry) || entry.kind == Symlink then None
      else Some(Progress(p.accepted + [NormalizedPath(entry.path).value], p.total + Payload(entry), p.commentSeen))
  }

  /** The paths accepted when one report follows another up to the end. */
  function Accepts(limits: Limits, reports: seq<Report>, p: Progress): Option<seq<string>>
    decreases |reports|
  {
    if reports == [] || reports[0] == End then Some(p.accepted)
    else
      var next := Judge(limits, reports[0], p);
      if next.None? then None else Accepts(limits, reports[1..], next.value)
  }

  lemma AcceptsNext(limits: Limits, reports: seq<Report>, i: nat, p: Progress)
    requires i < |reports|
    ensures Accepts(limits, reports[i..], p)
            == if reports[i] == End then Some(p.accepted)
               else if Judge(limits, reports[i], p).None? then None
               else Accepts(limits, reports[i + 1..], Judge(limits, reports[i], p).value)
  {
    assert reports[i..][0] == reports[i] && reports[i..][1..] == reports[i + 1..];
  }

  /** What the loop body does with one report; the payload is the budget of the next advance. */
  method Take(validator: EntryValidator, report: Report, commentSeen: bool)
    returns (ok: bool, seen: bool, payload: nat)
    requires validator.Valid() && report != End
    modifies validator
    ensures ok <==> Judge(validator.limits, report,
        Progress(old(validator.accepted), old(validator.total), commentSeen)).Some?
    ensures ok ==> validator.Valid()
                   && Judge(validator.limits, report,
                       Progress(old(validator.accepted), old(validator.total), commentSeen))
                      == Some(Progress(validator.accepted, validator.total, seen))
    ensures ok ==> payload == validator.total - old(validator.total)
    ensures ok ==> payload == if report.Next? then report.entry.size else 0
    ensures ok ==>
              validator.count + (if seen then 1 else 0) == old(validator.count) + (if commentSeen then 1 else 0) + 1
  {
    ok, seen, payload := false, commentSeen, 0;
    match report
    case Broken =>
    case Comment =>
      ok, seen := !commentSeen, true;
    case Next(entry) =>
      var rejected := validator.Push(entry);
      ok := rejected.None? && entry.kind != Symlink;
      payload := entry.size;
  }

  function Reports(script: seq<Advance>): (r: seq<Report>)
    ensures |r| == |script| && forall i :: 0 <= i < |script| ==> r[i] == script[i].report
  {
    seq(|script|, i requires 0 <= i < |script| => script[i].report)
  }

  /** The size of the entry that the parser reported just before this advance. */
  function PayloadBefore(script: seq<Advance>, k: nat): nat {
    if 0 < k <= |script| && script[k - 1].report.Next? then script[k - 1].report.entry.size else 0
  }

  /** Each advance could read the payload of the entry before it, and 64 KiB. */
  ghost predicate Granted(script: seq<Advance>, granted: seq<nat>) {
    |granted| <= |script|
    && forall k :: 0 <= k < |granted| ==> granted[k] == SaturatingAdd(PayloadBefore(script, k), 65536)
  }

  ghost predicate NoEnd(script: seq<Advance>, k: int)
    requires k <= |script|
  {
    forall j :: 0 <= j < k ==> script[j].report != End
  }

  /** The last of these advances is the first to report the end, or they are all there are. */
  ghost predicate Ends(script: seq<Advance>, k: nat)
    requires k <= |script|
  {
    if k > 0 && script[k - 1].report == End then NoEnd(script, k - 1) else k == |script| && NoEnd(script, k)
  }

  lemma GrantedGrows(script: seq<Advance>, granted: seq<nat>)
    requires Granted(script, granted) && |granted| < |script|
    ensures Granted(script, granted + [SaturatingAdd(PayloadBefore(script, |granted|), 65536)])
  {
  }

  /**
   `validate_archive` against any parser. Each advance is granted the size of the entry
   before it and 64 KiB. However it ends, it has read no more than
   the bound; it succeeds exactly when every report is acceptable in turn, and then
   the accepted paths are portable and pairwise distinct.
   */
  method ValidateArchive(limits: Limits, script: seq<Advance>)
    returns (ok: bool, consumed: nat, accepted: seq<string>, ghost granted: seq<nat>)
    ensures consumed <= ReadBound(limits)
    ensures Granted(script, granted) && (if ok then Ends(script, |granted|) else granted != [])
    ensures ok <==> Accepts(limits, Reports(script), Progress([], 0, false)).Some?
    ensures ok ==> Accepts(limits, Reports(script), Progress([], 0, false)) == Some(accepted)
    ensures ok ==> DistinctPaths(accepted) && |accepted| <= limits.maxEntries
  {
    var reader := new BudgetReader();
    var validator := new EntryValidator(limits);
    var commentSeen, previousPayload := false, 0;
    granted := [];
    ghost var reports := Reports(script);
    var i := 0;
    assert reports[0..] == reports;
    while i < |script|
      invariant 0 <= i <= |script|
      invariant fresh(reader) && fresh(validator) && validator.Valid() && validator.limits == limits
      invariant |granted| == i && Granted(script, granted) && NoEnd(script, i)
      invariant previousPayload == PayloadBefore(script, i)
      invariant reader.consumed + previousPayload
                <= validator.total + METADATA_LIMIT * (validator.count + if commentSeen then 1 else 0)
      invariant Accepts(limits, reports, Progress([], 0, false))
                == Accepts(limits, reports[i..], Progress(validator.accepted, validator.total, commentSeen))
    {
      var step := script[i];
      AcceptsNext(limits, reports, i, Progress(validator.accepted, validator.total, commentSeen));
      reader.Serve(SaturatingAdd(previousPayload, METADATA_LIMIT), step.before, step.after);
      GrantedGrows(script, granted);
      granted := granted + [SaturatingAdd(previousPayload, METADATA_LIMIT)];
      previousPayload := 0;
      BoundHolds(limits, reader.consumed, validator.total, validator.count, commentSeen);
      if step.report == End { return true, reader.consumed, validator.accepted, granted; }
      i := i + 1;
      var taken;
      taken, commentSeen, previousPayload := Take(validator, step.report, commentSeen);
      if !taken { return false, reader.consumed, validator.accepted, granted; }
    }
    BoundHolds(limits, reader.consumed, validator.total, validator.count, commentSeen);
    return true, reader.consumed, validator.accepted, granted;
  }

  lemma BoundHolds(limits: Limits, consumed: nat, total: nat, count: nat, commentSeen: bool)
    requires total <= limits.maxTotalSize && count <= limits.maxEntries
    requires consumed <= total + METADATA_LIMIT * (count + if commentSeen then 1 else 0) + METADATA_LIMIT
    ensures consumed <= ReadBound(limits)
  {
  }
}
