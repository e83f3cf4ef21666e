/**
 The `TAPID-PACK-1` encoding of crates/tapid-publish/src/lib.rs: packing, streaming
 inspection of the same source, and the decoder that packing does not need.
 */
module TapidPack {
  import opened Wrappers
  import opened Ordering
  import opened Framing

  const MAGIC: Bytes := "TAPID-PACK-1\n"

  datatype Limits = Limits(maxFiles: nat, maxFileBytes: nat, maxArtifactBytes: nat)
  datatype SourceFile = SourceFile(path: string, content: Bytes)
  datatype PublishError = UnsafePath(path: string) | FileCountExceeded | ArtifactBytesExceeded | FileBytesExceeded
  datatype ManifestFile = ManifestFile(path: string, size: nat, digest: string)
  datatype Packed = Packed(bytes: Bytes, manifest: seq<ManifestFile>)

  /** The opaque hash, and the casing key under which paths must not collide. */
  datatype Library = Library(digest: Bytes -> string, collisionKey: string -> string)

  // ----- Source paths -----

  predicate FileLe(a: SourceFile, b: SourceFile) { TextLe(a.path, b.path) }

  function FirstCollision(lib: Library, files: seq<SourceFile>, seen: set<string>): (r: Option<string>)
    ensures r.None? ==> forall i :: 0 <= i < |files| ==> lib.collisionKey(files[i].path) !in seen
    ensures r.None? ==> forall i, j :: 0 <= i < j < |files| ==>
              lib.collisionKey(files[i].path) != lib.collisionKey(files[j].path)
  {
    if files == [] then None
    else if lib.collisionKey(files[0].path) in seen then Some(files[0].path)
    else FirstCollision(lib, files[1..], seen + {lib.collisionKey(files[0].path)})
  }

  /** `normalized_source_paths` on the files that a walk collected. */
  function SourcePaths(lib: Library, limits: Limits, listed: seq<SourceFile>): Result<seq<SourceFile>, PublishError> {
    if |listed| > limits.maxFiles then Err(FileCountExceeded)
    else
      var files := Sort(FileLe, listed);
      var collision := FirstCollision(lib, files, {});
      if collision.Some? then Err(UnsafePath(collision.value)) else Ok(files)
  }

  // ----- Packing -----

  function Header(version: string): Bytes { MAGIC + LittleField(version) }

  function FileBytes(f: SourceFile): Bytes { LittleField(f.path) + LittleField(f.content) }

  function Body(files: seq<SourceFile>): Bytes {
    if files == [] then [] else FileBytes(files[0]) + Body(files[1..])
  }

  function Encode(version: string, files: seq<SourceFile>): Bytes { Header(version) + Body(files) }

  /** `check_artifact_size`. */
  function CheckSize(limits: Limits, current: nat, added: nat): (r: Option<nat>)
    ensures r.Some? ==> r.value == current + added <= limits.maxArtifactBytes
  {
    if current + added <= limits.maxArtifactBytes then Some(current + added) else None
  }

  /** The size after one more file, or the limit it would exceed. */
  function Grow(limits: Limits, size: nat, f: SourceFile): (r: Result<nat, PublishError>)
    ensures r.Ok? ==> r.value == size + 16 + |f.path| + |f.content| <= limits.maxArtifactBytes
  {
    var framed := CheckSize(limits, size, 16 + |f.path|);
    if framed.None? then Err(ArtifactBytesExceeded)
    else if |f.content| > Least(limits.maxFileBytes, limits.maxArtifactBytes - framed.value) then Err(FileBytesExceeded)
    else Ok(framed.value + |f.content|)
  }

  /** The first limit that packing `files` after `size` bytes would exceed. */
  function FirstExceeded(limits: Limits, size: nat, files: seq<SourceFile>): Option<PublishError>
    decreases |files|
  {
    if files == [] then None
    else
      var grown := Grow(limits, size, files[0]);
      if grown.Err? then Some(grown.error) else FirstExceeded(limits, grown.value, files[1..])
  }

  function Described(lib: Library, f: SourceFile): ManifestFile {
    ManifestFile(f.path, |f.content|, lib.digest(f.content))
  }

  function ManifestOf(lib: Library, files: seq<SourceFile>): seq<ManifestFile> {
    seq(|files|, i requires 0 <= i < |files| => Described(lib, files[i]))
  }

  /** The outcome of packing and of inspecting the same stable source. */
  function Outcome(lib: Library, limits: Limits, version: string,
                   listed: seq<SourceFile>): Result<Packed, PublishError> {
    var paths := SourcePaths(lib, limits, listed);
    if paths.Err? then Err(paths.error)
    else if CheckSize(limits, |MAGIC| + 8, |version|).None? then Err(ArtifactBytesExceeded)
    else
      var exceeded := FirstExceeded(limits, |Header(version)|, paths.value);
      if exceeded.Some? then Err(exceeded.value)
      else Ok(Packed(Encode(version, paths.value), ManifestOf(lib, paths.value)))
  }

  lemma {:induction false} BodyAppend(a: seq<SourceFile>, b: seq<SourceFile>)
    ensures Body(a + b) == Body(a) + Body(b)
  {
    if a == [] {
      assert a + b == b;
    } else {
      assert (a + b)[1..] == a[1..] + b;
      BodyAppend(a[1..], b);
    }
  }

  /** Progress of either loop: `i` files done, `size` bytes accounted for, limits met so far. */
  ghost predicate Done(lib: Library, limits: Limits, version: string, files: seq<SourceFile>, i: nat, size: nat,
                       manifest: seq<ManifestFile>) {
    && i <= |files|
    && size == |Encode(version, files[..i])| <= limits.maxArtifactBytes
    && manifest == ManifestOf(lib, files[..i])
    && FirstExceeded(limits, |Header(version)|, files) == FirstExceeded(limits, size, files[i..])
  }

  lemma NextBytes(version: string, files: seq<SourceFile>, i: nat)
    requires i < |files|
    ensures Encode(version, files[..i + 1]) == Encode(version, files[..i]) + FileBytes(files[i])
    ensures |FileBytes(files[i])| == 16 + |files[i].path| + |files[i].content|
  {
    assert files[..i + 1] == files[..i] + [files[i]];
    BodyAppend(files[..i], [files[i]]);
    assert Body([files[i]]) == FileBytes(files[i]) + Body([]) == FileBytes(files[i]);
  }

  lemma NextExceeded(limits: Limits, files: seq<SourceFile>, i: nat, size: nat)
    requires i < |files|
    ensures FirstExceeded(limits, size, files[i..])
            == var grown := Grow(limits, size, files[i]);
               if grown.Err? then Some(grown.error) else FirstExceeded(limits, grown.value, files[i + 1..])
  {
    assert files[i..][0] == files[i] && files[i..][1..] == files[i + 1..];
  }

  lemma NextFile(lib: Library, limits: Limits, version: string, files: seq<SourceFile>, i: nat, size: nat,
                 manifest: seq<ManifestFile>)
    requires i < |files| && Done(lib, limits, version, files, i, size, manifest)
    ensures var grown := Grow(limits, size, files[i]);
            if grown.Err? then FirstExceeded(limits, |Header(version)|, files) == Some(grown.error)
            else Done(lib, limits, version, files, i + 1, grown.value, manifest + [Described(lib, files[i])])
  {
    NextBytes(version, files, i);
    NextExceeded(limits, files, i, size);
    assert ManifestOf(lib, files[..i + 1]) == ManifestOf(lib, files[..i]) + [Described(lib, files[i])];
  }

  lemma AllDone(lib: Library, limits: Limits, version: string, files: seq<SourceFile>, size: nat,
                manifest: seq<ManifestFile>)
    requires Done(lib, limits, version, files, |files|, size, manifest)
    ensures FirstExceeded(limits, |Header(version)|, files).None?
    ensures manifest == ManifestOf(lib, files) && size == |Encode(version, files)|
  {
    assert files[..|files|] == files && files[|files|..] == [];
  }

  /** `append_field`. */
  function AppendField(out: Bytes, data: Bytes): Bytes { out + LittleField(data) }

  const ZERO_SIZE: Bytes := "\0\0\0\0\0\0\0\0"

  /** Appends a file with a zero size, reads its content, and then patches the size in place. */
  method AppendFile(bytes: Bytes, f: SourceFile) returns (out: Bytes)
    ensures out == bytes + FileBytes(f)
  {
    var named := AppendField(bytes, f.path);
    out := named + ZERO_SIZE;
    var sizeOffset, start := |named|, |out|;
    out := out + f.content;
    var size := LittleEndian(|out| - start, 8);
    out := out[..sizeOffset] + size + out[start..];
    PatchedSize(bytes, f, named, size, out);
  }

  lemma PatchedSize(bytes: Bytes, f: SourceFile, named: Bytes, size: Bytes, out: Bytes)
    requires named == bytes + LittleField(f.path) && size == LittleEndian(|f.content|, 8)
             && out == named + size + f.content
    ensures out == bytes + FileBytes(f)
  {
    assert named + size + f.content == bytes + (LittleField(f.path) + (size + f.content));
  }

  /** `pack`. No subtraction underflows. */
  method Pack(lib: Library, limits: Limits, version: string,
              listed: seq<SourceFile>) returns (r: Result<Packed, PublishError>)
    ensures r == Outcome(lib, limits, version, listed)
    ensures r.Ok? ==> |r.value.bytes| <= limits.maxArtifactBytes
  {
    var paths := SourcePaths(lib, limits, listed);
    if paths.Err? { return Err(paths.error); }
    if CheckSize(limits, |MAGIC| + 8, |version|).None? { return Err(ArtifactBytesExceeded); }
    HeaderIs(version, paths.value);
    var exceeded, packed := PackFiles(lib, limits, version, paths.value);
    return if exceeded.Some? then Err(exceeded.value) else Ok(packed);
  }

  method PackFiles(lib: Library, limits: Limits, version: string, files: seq<SourceFile>)
    returns (exceeded: Option<PublishError>, packed: Packed)
    requires |Header(version)| <= limits.maxArtifactBytes
    ensures exceeded == FirstExceeded(limits, |Header(version)|, files)
    ensures exceeded.None? ==> packed == Packed(Encode(version, files), ManifestOf(lib, files))
    ensures |packed.bytes| <= limits.maxArtifactBytes
  {
    var bytes := AppendField(MAGIC, version);
    var manifest: seq<ManifestFile> := [];
    HeaderIs(version, files);
    var i := 0;
    while i < |files|
      invariant 0 <= i <= |files|
      invariant bytes == Encode(version, files[..i]) && |bytes| <= limits.maxArtifactBytes
      invariant Done(lib, limits, version, files, i, |bytes|, manifest)
    {
      var f := files[i];
      NextFile(lib, limits, version, files, i, |bytes|, manifest);
      NextBytes(version, files, i);
      var framed := CheckSize(limits, |bytes|, 16 + |f.path|);
      if framed.None? { return Some(ArtifactBytesExceeded), Packed(bytes, manifest); }
      var maximum := Least(limits.maxFileBytes, limits.maxArtifactBytes - framed.value);
      if |f.content| > maximum {
        return Some(FileBytesExceeded), Packed(AppendField(bytes, f.path) + ZERO_SIZE, manifest);
      }
      bytes := AppendFile(bytes, f);
      manifest := manifest + [Described(lib, f)];
      i := i + 1;
    }
    AllDone(lib, limits, version, files, |bytes|, manifest);
    assert files[..i] == files;
    return None, Packed(bytes, manifest);
  }

  lemma HeaderIs(version: string, files: seq<SourceFile>)
    ensures AppendField(MAGIC, version) == Header(version) == Encode(version, files[..0])
    ensures |Header(version)| == |MAGIC| + 8 + |version|
    ensures files[0..] == files
  {
  }

  /**
   `inspect_source`: reads the same source in chunks and keeps only a running total.
   It succeeds exactly when packing does, with the same manifest, and its total is the
   packed length.
   */
  method Inspect(lib: Library, limits: Limits, version: string, listed: seq<SourceFile>, hints: nat -> nat)
    returns (r: Result<seq<ManifestFile>, PublishError>, total: nat)
    ensures r.Ok? <==> Outcome(lib, limits, version, listed).Ok?
    ensures r.Ok? ==> r.value == Outcome(lib, limits, version, listed).value.manifest
    ensures r.Ok? ==> total == |Outcome(lib, limits, version, listed).value.bytes|
    ensures r.Err? ==> r.error == Outcome(lib, limits, version, listed).error
  {
    var paths := SourcePaths(lib, limits, listed);
    if paths.Err? { return Err(paths.error), 0; }
    var header := CheckSize(limits, |MAGIC| + 8, |version|);
    if header.None? { return Err(ArtifactBytesExceeded), 0; }
    HeaderIs(version, paths.value);
    var exceeded, manifest;
    exceeded, manifest, total := InspectFiles(lib, limits, version, paths.value, header.value, hints);
    return if exceeded.Some? then Err(exceeded.value) else Ok(manifest), total;
  }

  method InspectFiles(lib: Library, limits: Limits, version: string, files: seq<SourceFile>, header: nat,
                      hints: nat -> nat)
    returns (exceeded: Option<PublishError>, manifest: seq<ManifestFile>, total: nat)
    requires header == |Header(version)| <= limits.maxArtifactBytes
    ensures exceeded == FirstExceeded(limits, |Header(version)|, files)
    ensures exceeded.None? ==> manifest == ManifestOf(lib, files) && total == |Encode(version, files)|
  {
    total, manifest := header, [];
    HeaderIs(version, files);
    var i := 0;
    while i < |files|
      invariant 0 <= i <= |files|
      invariant Done(lib, limits, version, files, i, total, manifest)
    {
      var f := files[i];
      NextFile(lib, limits, version, files, i, total, manifest);
      var framed := CheckSize(limits, total, 16 + |f.path|);
      if framed.None? { return Some(ArtifactBytesExceeded), manifest, total; }
      var maximum := Least(limits.maxFileBytes, limits.maxArtifactBytes - framed.value);
      if |f.content| > maximum { return Some(FileBytesExceeded), manifest, total; }
      var size, hashed := ReadChunks(f.content, maximum, hints);
      total := CheckSize(limits, framed.value, size).value;
      manifest := manifest + [ManifestFile(f.path, size, lib.digest(hashed))];
      i := i + 1;
    }
    AllDone(lib, limits, version, files, total, manifest);
    return None, manifest, total;
  }

  /** The read loop, with short reads at will: the bytes fed to the hash are the whole content. */
  method ReadChunks(content: Bytes, maximum: nat, hints: nat -> nat) returns (size: nat, hashed: Bytes)
    requires |content| <= maximum
    ensures size == |content| && hashed == content
  {
    size, hashed := 0, [];
    while size < |content|
      invariant size <= |content| && hashed == content[..size]
    {
      var count := ReadCount(CHUNK, |content| - size, hints(size));
      hashed := hashed + content[size..size + count];
      size := size + count;
    }
  }

  // ----- Decoding -----

  function ReadFiles(s: Bytes): Option<seq<SourceFile>>
    decreases |s|
  {
    if s == [] then Some([])
    else
      var path := TakeLittle(s);
      if path.None? then None
      else
        var content := TakeLittle(path.value.1);
        if content.None? then None
        else
          var rest := ReadFiles(content.value.1);
          if rest.None? then None else Some([SourceFile(path.value.0, content.value.0)] + rest.value)
  }

  function Decode(s: Bytes): Option<(string, seq<SourceFile>)> {
    if !(MAGIC <= s) || TakeLittle(s[|MAGIC|..]).None? then None
    else
      var (version, rest) := TakeLittle(s[|MAGIC|..]).value;
      var files := ReadFiles(rest);
      if files.None? then None else Some((version, files.value))
  }

  ghost predicate Small(f: SourceFile) { |f.path| < U64 && |f.content| < U64 }

  lemma {:induction false} FilesRoundTrip(files: seq<SourceFile>)
    requires forall i :: 0 <= i < |files| ==> Small(files[i])
    ensures ReadFiles(Body(files)) == Some(files)
  {
    if files != [] {
      var f, rest := files[0], Body(files[1..]);
      var tail := LittleField(f.content) + rest;
      assert Body(files) == LittleField(f.path) + tail;
      LittleFieldRoundTrip(f.path, tail);
      LittleFieldRoundTrip(f.content, rest);
      FilesRoundTrip(files[1..]);
      assert files == [f] + files[1..];
    }
  }

  /** Round trip: decoding gives back version, paths and contents. */
  lemma PackRoundTrip(version: string, files: seq<SourceFile>)
    requires |version| < U64 && forall i :: 0 <= i < |files| ==> Small(files[i])
    ensures Decode(Encode(version, files)) == Some((version, files))
  {
    var s := Encode(version, files);
    assert s == MAGIC + (LittleField(version) + Body(files));
    assert s[|MAGIC|..] == LittleField(version) + Body(files);
    LittleFieldRoundTrip(version, Body(files));
    FilesRoundTrip(files);
  }

  /** Everything in an artifact that was packed is small enough for its length fields. */
  lemma {:induction false} PackedIsSmall(limits: Limits, size: nat, files: seq<SourceFile>)
    requires limits.maxArtifactBytes < U64 && FirstExceeded(limits, size, files).None?
    ensures forall i :: 0 <= i < |files| ==> Small(files[i])
    decreases |files|
  {
    if files != [] {
      PackedIsSmall(limits, size + 16 + |files[0].path| + |files[0].content|, files[1..]);
    }
  }

  /** Two sources that pack to the same bytes have the same version, paths and contents. */
  lemma PackInjective(lib: Library, limits: Limits, v: string, a: seq<SourceFile>, w: string, b: seq<SourceFile>)
    requires limits.maxArtifactBytes < U64
    requires Outcome(lib, limits, v, a).Ok? && Outcome(lib, limits, w, b).Ok?
    requires Outcome(lib, limits, v, a).value.bytes == Outcome(lib, limits, w, b).value.bytes
    ensures v == w && Sort(FileLe, a) == Sort(FileLe, b) && multiset(a) == multiset(b)
  {
    var x, y := SourcePaths(lib, limits, a).value, SourcePaths(lib, limits, b).value;
    PackedIsSmall(limits, |Header(v)|, x);
    PackedIsSmall(limits, |Header(w)|, y);
    PackRoundTrip(v, x);
    PackRoundTrip(w, y);
  }

  function PathsOf(files: seq<SourceFile>): (r: seq<string>)
    ensures |r| == |files| && forall i :: 0 <= i < |files| ==> r[i] == files[i].path
  {
    seq(|files|, i requires 0 <= i < |files| => files[i].path)
  }

  lemma {:induction false} PathsMultiset(a: seq<SourceFile>, b: seq<SourceFile>)
    requires multiset(a) == multiset(b)
    ensures multiset(PathsOf(a)) == multiset(PathsOf(b))
    decreases |a|
  {
    assert |multiset(a)| == |a| && |multiset(b)| == |b|;
    if a != [] {
      var x, y := SplitAround(a, b);
      PathsMultiset(a[1..], x + y);
      PathsAround([], a[0], a[1..]);
      PathsAround(x, a[0], y);
      assert [] + [a[0]] + a[1..] == a && [] + a[1..] == a[1..];
    }
  }

  lemma PathsAround(x: seq<SourceFile>, f: SourceFile, y: seq<SourceFile>)
    ensures multiset(PathsOf(x + [f] + y)) == multiset{f.path} + multiset(PathsOf(x + y))
  {
    var p, q := PathsOf(x), PathsOf(y);
    assert PathsOf(x + [f] + y) == p + [f.path] + q && PathsOf(x + y) == p + q;
    assert multiset(p + [f.path] + q) == multiset(p) + multiset{f.path} + multiset(q);
    assert multiset(p + q) == multiset(p) + multiset(q);
  }

  /** The sorted paths are fixed by the multiset of files, also where two files share a path. */
  lemma SortedPathsAlike(a: seq<SourceFile>, b: seq<SourceFile>)
    requires multiset(a) == multiset(b)
    ensures PathsOf(Sort(FileLe, a)) == PathsOf(Sort(FileLe, b))
  {
    FileOrder();
    SortSorted(FileLe, a);
    SortSorted(FileLe, b);
    PathsMultiset(Sort(FileLe, a), Sort(FileLe, b));
    SameSortedTexts(PathsOf(Sort(FileLe, a)), PathsOf(Sort(FileLe, b)));
  }

  lemma SameSortedTexts(p: seq<string>, q: seq<string>)
    requires Sorted(TextLe, p) && Sorted(TextLe, q) && multiset(p) == multiset(q)
    ensures p == q
  {
    TextOrder();
    SortedUnique(TextLe, p, q);
  }

  /** Collisions are found by the paths alone. */
  lemma {:induction false} CollisionOfPaths(lib: Library, a: seq<SourceFile>, b: seq<SourceFile>, seen: set<string>)
    requires PathsOf(a) == PathsOf(b)
    ensures FirstCollision(lib, a, seen) == FirstCollision(lib, b, seen)
    decreases |a|
  {
    assert |a| == |b|;
    if a != [] {
      assert PathsOf(a)[0] == a[0].path && PathsOf(b)[0] == b[0].path;
      assert PathsOf(a)[1..] == PathsOf(a[1..]) && PathsOf(b)[1..] == PathsOf(b[1..]);
      CollisionOfPaths(lib, a[1..], b[1..], seen + {lib.collisionKey(a[0].path)});
    }
  }

  /**
   The outcome does not depend on the order in which the files were collected: two files
   with one path are rejected in every order.
   */
  lemma PackIgnoresOrder(lib: Library, limits: Limits, version: string, a: seq<SourceFile>, b: seq<SourceFile>)
    requires multiset(a) == multiset(b)
    ensures Outcome(lib, limits, version, a) == Outcome(lib, limits, version, b)
  {
    CollectedAlike(lib, limits, a, b);
  }

  lemma CollectedAlike(lib: Library, limits: Limits, a: seq<SourceFile>, b: seq<SourceFile>)
    requires multiset(a) == multiset(b)
    ensures SourcePaths(lib, limits, a) == SourcePaths(lib, limits, b)
  {
    assert |a| == |multiset(a)| == |multiset(b)| == |b|;
    SortedPathsAlike(a, b);
    CollisionOfPaths(lib, Sort(FileLe, a), Sort(FileLe, b), {});
    if FirstCollision(lib, Sort(FileLe, a), {}).None? {
      OneFilePerPath(lib, a);
      PathsAlike(lib, limits, a, b);
    }
  }

  lemma OneFilePerPath(lib: Library, a: seq<SourceFile>)
    requires FirstCollision(lib, Sort(FileLe, a), {}).None?
    ensures forall x, y :: x in a && y in a && x.path == y.path ==> x == y
  {
    SortElements(FileLe, a);
    forall x, y | x in a && y in a && x.path == y.path ensures x == y {
      SamePathSameFile(lib, Sort(FileLe, a), x, y);
    }
  }

  lemma SamePathSameFile(lib: Library, s: seq<SourceFile>, x: SourceFile, y: SourceFile)
    requires FirstCollision(lib, s, {}).None? && x in s && y in s && x.path == y.path
    ensures x == y
  {
    var i :| 0 <= i < |s| && s[i] == x;
    var j :| 0 <= j < |s| && s[j] == y;
    if i < j {
      assert lib.collisionKey(s[i].path) != lib.collisionKey(s[j].path);
    } else if j < i {
      assert lib.collisionKey(s[j].path) != lib.collisionKey(s[i].path);
    }
  }

  lemma PathsAlike(lib: Library, limits: Limits, a: seq<SourceFile>, b: seq<SourceFile>)
    requires multiset(a) == multiset(b)
    requires forall x, y :: x in a && y in a && x.path == y.path ==> x == y
    ensures SourcePaths(lib, limits, a) == SourcePaths(lib, limits, b)
  {
    assert |a| == |multiset(a)| == |multiset(b)| == |b|;
    FilesSortAlike(a, b);
  }

  lemma FilesSortAlike(a: seq<SourceFile>, b: seq<SourceFile>)
    requires multiset(a) == multiset(b)
    requires forall x, y :: x in a && y in a && x.path == y.path ==> x == y
    ensures Sort(FileLe, a) == Sort(FileLe, b)
  {
    FileOrder();
    SortSorted(FileLe, a);
    SortSorted(FileLe, b);
    SortElements(FileLe, a);
    var x := Sort(FileLe, a);
    forall f, h | f in x && h in x && FileLe(f, h) && FileLe(h, f) ensures f == h { TextLeTotal(f.path, h.path); }
    SortedUnique(FileLe, x, Sort(FileLe, b));
  }

  lemma FileOrder()
    ensures Ranking(FileLe)
  {
    forall x, y ensures FileLe(x, y) || FileLe(y, x) { TextLeTotal(x.path, y.path); }
    forall x, y, z | FileLe(x, y) && FileLe(y, z) ensures FileLe(x, z) { TextLeTransitive(x.path, y.path, z.path); }
  }
}
