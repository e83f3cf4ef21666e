/**
 Packing, on the sizes and bytes alone: which sources are packed, which limit stops the
 others, and where every byte of the artifact comes from.
 */
module PackMeaning {
  import opened Wrappers
  import opened Ordering
  import opened Framing
  import opened TapidPack

  /** Bytes that a file takes: two lengths, its path and its content. */
  function Size(f: SourceFile): nat { 8 + |f.path| + 8 + |f.content| }

  function Sizes(files: seq<SourceFile>): nat {
    if files == [] then 0 else Size(files[0]) + Sizes(files[1..])
  }

  /** The magic, the length of the version and the version. */
  function HeaderSize(version: string): nat { 13 + 8 + |version| }

  lemma {:induction false} SizesAppend(a: seq<SourceFile>, b: seq<SourceFile>)
    ensures Sizes(a + b) == Sizes(a) + Sizes(b)
  {
    if a == [] {
      assert a + b == b;
    } else {
      assert (a + b)[1..] == a[1..] + b;
      SizesAppend(a[1..], b);
    }
  }

  lemma {:induction false} InsertSizes(f: SourceFile, s: seq<SourceFile>)
    ensures Sizes(Insert(FileLe, f, s)) == Size(f) + Sizes(s)
  {
    if s == [] || FileLe(f, s[0]) {
      assert ([f] + s)[1..] == s;
    } else {
      InsertSizes(f, s[1..]);
      assert ([s[0]] + Insert(FileLe, f, s[1..]))[1..] == Insert(FileLe, f, s[1..]);
    }
  }

  lemma {:induction false} SortSizes(s: seq<SourceFile>)
    ensures Sizes(Sort(FileLe, s)) == Sizes(s)
  {
    if s != [] {
      SortSizes(s[1..]);
      InsertSizes(s[0], Sort(FileLe, s[1..]));
    }
  }

  // ----- Limits -----

  /** Every content is within the limit for files, and the total within the one for artifacts. */
  ghost predicate Fits(limits: Limits, size: nat, files: seq<SourceFile>) {
    && (forall i :: 0 <= i < |files| ==> |files[i].content| <= limits.maxFileBytes)
    && size + Sizes(files) <= limits.maxArtifactBytes
  }

  lemma {:induction false} FitsIff(limits: Limits, size: nat, files: seq<SourceFile>)
    requires size <= limits.maxArtifactBytes
    ensures FirstExceeded(limits, size, files).None? <==> Fits(limits, size, files)
    decreases |files|
  {
    if files != [] {
      assert files == [files[0]] + files[1..];
      if Grow(limits, size, files[0]).Ok? { FitsIff(limits, size + Size(files[0]), files[1..]); }
    }
  }

  /** The file at `i` is the first at which a limit stops packing, and this is the error. */
  ghost predicate StopsAt(limits: Limits, size: nat, files: seq<SourceFile>, i: nat, e: PublishError)
    requires i < |files|
  {
    var before := size + Sizes(files[..i]);
    && Fits(limits, size, files[..i])
    && if before + 16 + |files[i].path| > limits.maxArtifactBytes then e == ArtifactBytesExceeded
       else e == FileBytesExceeded
            && (|files[i].content| > limits.maxFileBytes || before + Size(files[i]) > limits.maxArtifactBytes)
  }

  lemma {:induction false} StopIs(limits: Limits, size: nat, files: seq<SourceFile>)
    requires size <= limits.maxArtifactBytes && FirstExceeded(limits, size, files).Some?
    ensures exists i :: 0 <= i < |files| && StopsAt(limits, size, files, i, FirstExceeded(limits, size, files).value)
    decreases |files|
  {
    var e := FirstExceeded(limits, size, files).value;
    if Grow(limits, size, files[0]).Err? {
      assert files[..0] == [];
      assert StopsAt(limits, size, files, 0, e);
    } else {
      var next := size + Size(files[0]);
      StopIs(limits, next, files[1..]);
      var i :| 0 <= i < |files[1..]| && StopsAt(limits, next, files[1..], i, e);
      assert files[..i + 1] == [files[0]] + files[1..][..i];
      assert files[i + 1] == files[1..][i];
      assert StopsAt(limits, size, files, i + 1, e);
    }
  }

  // ----- Collisions -----

  /** No two paths have the same casing key. */
  ghost predicate Apart(lib: Library, files: seq<SourceFile>) {
    forall i, j :: 0 <= i < j < |files| ==> lib.collisionKey(files[i].path) != lib.collisionKey(files[j].path)
  }

  lemma ApartSorted(lib: Library, listed: seq<SourceFile>)
    ensures Apart(lib, Sort(FileLe, listed)) <==> Apart(lib, listed)
  {
    var key := (f: SourceFile) => lib.collisionKey(f.path);
    var files := Sort(FileLe, listed);
    if Apart(lib, files) {
      assert KeysApart(files, key);
      ApartInAnyOrder(files, listed, key);
      forall i, j | 0 <= i < j < |listed|
        ensures lib.collisionKey(listed[i].path) != lib.collisionKey(listed[j].path)
      {
        assert key(listed[i]) != key(listed[j]);
      }
    }
    if Apart(lib, listed) {
      assert KeysApart(listed, key);
      ApartInAnyOrder(listed, files, key);
      forall i, j | 0 <= i < j < |files|
        ensures lib.collisionKey(files[i].path) != lib.collisionKey(files[j].path)
      {
        assert key(files[i]) != key(files[j]);
      }
    }
  }

  /** The path is that of the first file whose key an earlier file, or the set, already has. */
  ghost predicate CollidesFirst(lib: Library, files: seq<SourceFile>, seen: set<string>, i: nat)
    requires i < |files|
  {
    && Apart(lib, files[..i])
    && (forall j :: 0 <= j < i ==> lib.collisionKey(files[j].path) !in seen)
    && (lib.collisionKey(files[i].path) in seen
        || exists j :: 0 <= j < i && lib.collisionKey(files[j].path) == lib.collisionKey(files[i].path))
  }

  lemma {:induction false} CollisionIs(lib: Library, files: seq<SourceFile>, seen: set<string>)
    ensures FirstCollision(lib, files, seen).Some? ==>
              exists i :: 0 <= i < |files| && CollidesFirst(lib, files, seen, i)
                          && FirstCollision(lib, files, seen).value == files[i].path
    ensures Apart(lib, files) && (forall i :: 0 <= i < |files| ==> lib.collisionKey(files[i].path) !in seen) ==>
              FirstCollision(lib, files, seen).None?
    decreases |files|
  {
    if files != [] {
      var key := lib.collisionKey(files[0].path);
      if key in seen {
        assert CollidesFirst(lib, files, seen, 0);
      } else {
        CollisionIs(lib, files[1..], seen + {key});
        if FirstCollision(lib, files[1..], seen + {key}).Some? {
          var i :| 0 <= i < |files[1..]| && CollidesFirst(lib, files[1..], seen + {key}, i)
                   && FirstCollision(lib, files[1..], seen + {key}).value == files[1..][i].path;
          CollidesLater(lib, files, seen, i);
          assert files[i + 1].path == FirstCollision(lib, files, seen).value;
        }
      }
    }
  }

  lemma CollidesLater(lib: Library, files: seq<SourceFile>, seen: set<string>, i: nat)
    requires files != [] && i < |files[1..]| && lib.collisionKey(files[0].path) !in seen
    requires CollidesFirst(lib, files[1..], seen + {lib.collisionKey(files[0].path)}, i)
    ensures CollidesFirst(lib, files, seen, i + 1)
  {
    var rest := files[1..];
    forall j | 0 <= j < |rest| ensures rest[j] == files[j + 1] {}
    forall p, q | 0 <= p < q < i + 1
      ensures lib.collisionKey(files[p].path) != lib.collisionKey(files[q].path)
    {
      if p > 0 { assert rest[..i][p - 1] == files[p] && rest[..i][q - 1] == files[q]; }
      assert rest[q - 1] == files[q];
    }
    if lib.collisionKey(rest[i].path) !in seen && lib.collisionKey(rest[i].path) != lib.collisionKey(files[0].path) {
      var j :| 0 <= j < i && lib.collisionKey(rest[j].path) == lib.collisionKey(rest[i].path);
      assert files[j + 1] == rest[j];
    }
  }

  // ----- The outcome -----

  /**
   A source is packed if and only if it has no more files than allowed, no two of them collide,
   every content is within its limit and the whole artifact within its own.
   */
  lemma PackSucceedsIff(lib: Library, limits: Limits, version: string, listed: seq<SourceFile>)
    ensures Outcome(lib, limits, version, listed).Ok?
            <==> && |listed| <= limits.maxFiles && Apart(lib, listed)
                 && (forall f :: f in listed ==> |f.content| <= limits.maxFileBytes)
                 && HeaderSize(version) + Sizes(listed) <= limits.maxArtifactBytes
  {
    PathsOkIff(lib, limits, listed);
    HeaderIsSized(version);
    if SourcePaths(lib, limits, listed).Ok? && HeaderSize(version) <= limits.maxArtifactBytes {
      FitsListed(limits, HeaderSize(version), listed);
    }
  }

  lemma HeaderIsSized(version: string)
    ensures |Header(version)| == |MAGIC| + 8 + |version| == HeaderSize(version)
  {
    assert |MAGIC| == 13;
  }

  lemma PathsOkIff(lib: Library, limits: Limits, listed: seq<SourceFile>)
    ensures SourcePaths(lib, limits, listed).Ok? <==> |listed| <= limits.maxFiles && Apart(lib, listed)
    ensures SourcePaths(lib, limits, listed).Ok? ==> SourcePaths(lib, limits, listed).value == Sort(FileLe, listed)
  {
    ApartSorted(lib, listed);
    CollisionIs(lib, Sort(FileLe, listed), {});
  }

  lemma FitsListed(limits: Limits, size: nat, listed: seq<SourceFile>)
    requires size <= limits.maxArtifactBytes
    ensures FirstExceeded(limits, size, Sort(FileLe, listed)).None?
            <==> (forall f :: f in listed ==> |f.content| <= limits.maxFileBytes)
                 && size + Sizes(listed) <= limits.maxArtifactBytes
  {
    SortSizes(listed);
    SortElements(FileLe, listed);
    FitsIff(limits, size, Sort(FileLe, listed));
    ContentsFit(limits, listed, Sort(FileLe, listed));
  }

  lemma ContentsFit(limits: Limits, listed: seq<SourceFile>, files: seq<SourceFile>)
    requires forall f :: f in listed <==> f in files
    ensures (forall i :: 0 <= i < |files| ==> |files[i].content| <= limits.maxFileBytes)
            <==> forall f :: f in listed ==> |f.content| <= limits.maxFileBytes
  {
    if forall i :: 0 <= i < |files| ==> |files[i].content| <= limits.maxFileBytes {
      forall f | f in listed ensures |f.content| <= limits.maxFileBytes {
        var i :| 0 <= i < |files| && files[i] == f;
      }
    }
  }

  /** The checks, in their order: number of files, collisions, the header, and then file after file. */
  lemma PackFailure(lib: Library, limits: Limits, version: string, listed: seq<SourceFile>)
    requires Outcome(lib, limits, version, listed).Err?
    ensures var e := Outcome(lib, limits, version, listed).error;
            var files := Sort(FileLe, listed);
            if |listed| > limits.maxFiles then e == FileCountExceeded
            else if !Apart(lib, listed) then
              exists i :: 0 <= i < |files| && CollidesFirst(lib, files, {}, i) && e == UnsafePath(files[i].path)
            else if HeaderSize(version) > limits.maxArtifactBytes then e == ArtifactBytesExceeded
            else exists i :: 0 <= i < |files| && StopsAt(limits, HeaderSize(version), files, i, e)
  {
    PathsOkIff(lib, limits, listed);
    HeaderIsSized(version);
    if SourcePaths(lib, limits, listed).Err? {
      CollisionIs(lib, Sort(FileLe, listed), {});
    } else if HeaderSize(version) <= limits.maxArtifactBytes {
      StopIs(limits, HeaderSize(version), Sort(FileLe, listed));
    }
  }

  /** Files in the order of their paths. */
  ghost predicate ByPath(files: seq<SourceFile>) {
    forall i, j :: 0 <= i < j < |files| ==> TextLe(files[i].path, files[j].path)
  }

  /** These bytes and entries are those of the files in this order. */
  ghost predicate Holds(lib: Library, version: string, packed: Packed, files: seq<SourceFile>) {
    && packed.bytes == Encode(version, files)
    && |packed.bytes| == HeaderSize(version) + Sizes(files)
    && |packed.manifest| == |files|
    && forall i :: 0 <= i < |files| ==>
         packed.manifest[i] == ManifestFile(files[i].path, |files[i].content|, lib.digest(files[i].content))
  }

  lemma EncodedHolds(lib: Library, version: string, files: seq<SourceFile>)
    ensures Holds(lib, version, Packed(Encode(version, files), ManifestOf(lib, files)), files)
  {
    HeaderIsSized(version);
    BodySize(files);
  }

  /**
   What is packed: the files in the order of their paths, one manifest entry for each with its
   path, size and digest, and exactly as many bytes as their sizes add up to.
   */
  lemma PackedMeans(lib: Library, limits: Limits, version: string, listed: seq<SourceFile>)
    returns (files: seq<SourceFile>)
    requires Outcome(lib, limits, version, listed).Ok?
    ensures ByPath(files) && multiset(files) == multiset(listed)
    ensures Holds(lib, version, Outcome(lib, limits, version, listed).value, files)
  {
    files := SourcePaths(lib, limits, listed).value;
    SortedByPath(listed);
    EncodedHolds(lib, version, files);
  }

  lemma SortedByPath(listed: seq<SourceFile>)
    ensures ByPath(Sort(FileLe, listed))
  {
    FileOrder();
    SortSorted(FileLe, listed);
    RanksByPath(Sort(FileLe, listed));
  }

  lemma RanksByPath(files: seq<SourceFile>)
    requires Sorted(FileLe, files)
    ensures ByPath(files)
  {
    forall i, j | 0 <= i < j < |files| ensures TextLe(files[i].path, files[j].path) {
      assert FileLe(files[i], files[j]);
    }
  }

  lemma {:induction false} BodySize(files: seq<SourceFile>)
    ensures |Body(files)| == Sizes(files)
  {
    if files != [] { BodySize(files[1..]); }
  }

  /** The artifact starts with its magic line, then the length of the version and the version. */
  lemma HeaderLayout(version: string, files: seq<SourceFile>)
    ensures var s, v := Encode(version, files), |version|;
            && |s| == 13 + 8 + v + |Body(files)|
            && s[..13] == "TAPID-PACK-1\n"
            && s[13..21] == LittleEndian(v, 8) && s[21..21 + v] == version && s[21 + v..] == Body(files)
  {
    var s, v := Encode(version, files), |version|;
    assert |MAGIC| == 13;
    assert s == MAGIC + (LittleEndian(v, 8) + (version + Body(files)));
  }

  /** At this position: the length of the path, the path, the length of the content, the content. */
  ghost predicate Stands(s: Bytes, at: nat, f: SourceFile) {
    var p, c := |f.path|, |f.content|;
    && at + 16 + p + c <= |s|
    && s[at..at + 8] == LittleEndian(p, 8) && s[at + 8..at + 8 + p] == f.path
    && s[at + 8 + p..at + 16 + p] == LittleEndian(c, 8) && s[at + 16 + p..at + 16 + p + c] == f.content
  }

  /** Each file stands right after the files before it. */
  lemma FileLayout(files: seq<SourceFile>, i: nat)
    requires i < |files|
    ensures Stands(Body(files), Sizes(files[..i]), files[i])
  {
    BodyAround(files, i);
    BodySize(files[..i]);
    OneFile(Body(files[..i]), files[i], Body(files[i + 1..]));
  }

  lemma BodyAround(files: seq<SourceFile>, i: nat)
    requires i < |files|
    ensures Body(files) == Body(files[..i]) + (FileBytes(files[i]) + Body(files[i + 1..]))
  {
    assert files == files[..i] + files[i..];
    BodyAppend(files[..i], files[i..]);
    assert files[i..][0] == files[i] && files[i..][1..] == files[i + 1..];
  }

  lemma OneFile(front: Bytes, f: SourceFile, rest: Bytes)
    ensures Stands(front + (FileBytes(f) + rest), |front|, f)
  {
    var n, m := LittleEndian(|f.path|, 8), LittleEndian(|f.content|, 8);
    FourParts(front, n, f.path, m, f.content, rest);
    assert FileBytes(f) + rest == n + (f.path + (m + (f.content + rest)));
  }

  lemma FourParts(front: Bytes, a: Bytes, b: Bytes, c: Bytes, e: Bytes, rest: Bytes)
    ensures var s, i := front + (a + (b + (c + (e + rest)))), |front|;
            && s[i..i + |a|] == a
            && s[i + |a|..i + |a| + |b|] == b
            && s[i + |a| + |b|..i + |a| + |b| + |c|] == c
            && s[i + |a| + |b| + |c|..i + |a| + |b| + |c| + |e|] == e
  {
    Part(front, a, b + (c + (e + rest)));
    Part(front + a, b, c + (e + rest));
    Part(front + a + b, c, e + rest);
    Part(front + a + b + c, e, rest);
    assert front + (a + (b + (c + (e + rest)))) == front + a + (b + (c + (e + rest)));
    assert front + a + (b + (c + (e + rest))) == front + a + b + (c + (e + rest));
    assert front + a + b + (c + (e + rest)) == front + a + b + c + (e + rest);
  }

  lemma Part(front: Bytes, a: Bytes, rest: Bytes)
    ensures (front + (a + rest))[|front|..|front| + |a|] == a
  {
  }
}
