/**
 File names that contain a backslash: the walk spells them with a separator, so two
 different trees can have one stream, and one tree can have two.
 */
module TreeWitness {
  import opened Wrappers
  import opened Ordering
  import opened Text
  import opened Framing
  import opened TreeModel
  import opened TreeRecords
  import opened TreeStream
  import opened TreeTheorems
  import opened TreeCollisions

  const OUTER := "a"
  const INNER := "b"
  const SLASHED := "a\\b"

  lemma Spellings()
    ensures UNIX(OUTER) == OUTER && UNIX(INNER) == INNER && UNIX(SLASHED) == "a/b"
    ensures Rel(UNIX, [OUTER]) == OUTER && Rel(UNIX, [SLASHED]) == Rel(UNIX, [OUTER, INNER]) == "a/b"
    ensures !Reserved(None, OUTER) && !Reserved(None, "a/b")
  {
    assert Slashed("a\\b") == "a/b" && Slashed("a") == "a" && Slashed("b") == "b";
    assert [OUTER, INNER][..1] == [OUTER];
    assert |TREE_MARK| > 3 && |MANIFEST| > 3;
  }

  // ----- One stream, two trees -----

  /** A directory `a` holding file `b`. */
  function Nested(data: Bytes): map<string, Node> { map[OUTER := Dir(map[INNER := File(false, data)])] }

  lemma FileHasNoPaths(data: Bytes, q: seq<string>)
    ensures At(File(false, data), q).Some? <==> q == []
  {
  }

  /** A directory with one file has two paths. */
  lemma FileInDirectory(n: string, data: Bytes, q: seq<string>)
    ensures At(Dir(map[n := File(false, data)]), q).Some? ==> q == [] || q == [n]
    ensures At(Dir(map[n := File(false, data)]), [n]) == Some(File(false, data))
  {
    assert [n][1..] == [];
    if q != [] && q[0] == n {
      FileHasNoPaths(data, q[1..]);
      assert q == [n] + q[1..];
    }
  }

  lemma DirectoryInRoot(outer: string, inner: string, data: Bytes, q: seq<string>)
    ensures q != [] && q[0] == outer ==>
              At(Dir(map[outer := Dir(map[inner := File(false, data)])]), q)
                == At(Dir(map[inner := File(false, data)]), q[1..])
    ensures At(Dir(map[outer := Dir(map[inner := File(false, data)])]), q).Some? ==>
              q == [] || q == [outer] || q == [outer, inner]
  {
    if q != [] && q[0] == outer {
      FileInDirectory(inner, data, q[1..]);
      assert q == [outer] + q[1..];
      assert [outer] + [inner] == [outer, inner] && [outer] + [] == [outer];
    }
  }

  lemma NestedPaths(data: Bytes, q: seq<string>)
    ensures At(Dir(Nested(data)), [OUTER]) == Some(Dir(map[INNER := File(false, data)]))
    ensures At(Dir(Nested(data)), [OUTER, INNER]) == Some(File(false, data))
    ensures At(Dir(Nested(data)), q).Some? ==> q == [] || q == [OUTER] || q == [OUTER, INNER]
  {
    DirectoryInRoot(OUTER, INNER, data, q);
    DirectoryInRoot(OUTER, INNER, data, [OUTER]);
    DirectoryInRoot(OUTER, INNER, data, [OUTER, INNER]);
    FileInDirectory(INNER, data, [INNER]);
    assert [OUTER][1..] == [] && [OUTER, INNER][1..] == [INNER];
  }

  lemma NestedSeen(data: Bytes)
    ensures Hashed(UNIX, Nested(data), None) == Nested(data)
  {
    Spellings();
  }

  lemma NestedIsReadable(data: Bytes, list: Listing)
    requires Complete(list) && |data| < U64
    ensures Readable(Input(Nested(data), None), None, Host(list, UNIX))
  {
    var input, host := Input(Nested(data), None), Host(list, UNIX);
    NestedSeen(data);
    forall q | q != [] && At(Dir(Nested(data)), q).Some?
      ensures Acceptable(ViewOf(None, None, host), q, At(Dir(Nested(data)), q).value) {
      NestedPaths(data, q);
    }
    WalkSucceedsIff(ViewOf(None, None, host), Nested(data));
    forall f | f in Collect(input, None, host).value ensures Small(f) {
      EntryOrigin(input, None, host, f);
      var r :| Collected(Nested(data), r) && f == Shown(UNIX, r);
      NestedPaths(data, r.path);
      Spellings();
    }
  }

  /** A directory with a file in it shares its stream with another tree. */
  lemma BackslashCollides(data: Bytes, list: Listing)
    requires Complete(list) && |data| < U64
    ensures HasCollision(Input(Nested(data), None), Host(list, UNIX), UNIX_NAME)
  {
    NestedSeen(data);
    NestedIsReadable(data, list);
    NestedIsGood(data);
    NestedPaths(data, []);
    assert HasLooseEntry(Input(Nested(data), None)) by { assert |[OUTER, INNER]| >= 2; }
    UnixCollidesIff(Input(Nested(data), None), list);
  }

  lemma NestedIsGood(data: Bytes)
    ensures GoodNames(UNIX, Nested(data)) && LegalNames(UNIX_NAME, Nested(data))
  {
    Spellings();
    assert '/' !in OUTER && '/' !in INNER;
    forall q | At(Dir(Nested(data)), q).Some? ensures GoodPath(UNIX, q) && (q != [] ==> UNIX_NAME(q[|q| - 1])) {
      NestedPaths(data, q);
    }
  }

  // ----- One tree, two streams -----

  /** A file inside directory `a`, and another whose name spells the same path. */
  function Both(x: Bytes, y: Bytes): map<string, Node> {
    map[OUTER := Dir(map[INNER := File(false, x)]), SLASHED := File(false, y)]
  }

  lemma BothPaths(x: Bytes, y: Bytes, q: seq<string>)
    ensures At(Dir(Both(x, y)), [SLASHED]) == Some(File(false, y))
    ensures q != [] && q[0] == OUTER ==> At(Dir(Both(x, y)), q) == At(Dir(Nested(x)), q)
    ensures At(Dir(Both(x, y)), q).Some? ==> q == [] || q[0] == OUTER || q == [SLASHED]
  {
    assert |OUTER| != |SLASHED|;
    assert [SLASHED][1..] == [];
    if q != [] && q[0] == SLASHED {
      FileHasNoPaths(y, q[1..]);
      assert q == [SLASHED] + q[1..];
    }
  }

  lemma BothSeen(x: Bytes, y: Bytes)
    ensures Hashed(UNIX, Both(x, y), None) == Both(x, y)
  {
    Spellings();
  }

  lemma BothIsReadable(x: Bytes, y: Bytes, list: Listing)
    requires Complete(list) && |x| < U64 && |y| < U64
    ensures Readable(Input(Both(x, y), None), None, Host(list, UNIX))
  {
    var input, host := Input(Both(x, y), None), Host(list, UNIX);
    BothSeen(x, y);
    forall q | q != [] && At(Dir(Both(x, y)), q).Some?
      ensures Acceptable(ViewOf(None, None, host), q, At(Dir(Both(x, y)), q).value) {
      BothPaths(x, y, q);
      NestedPaths(x, q);
    }
    WalkSucceedsIff(ViewOf(None, None, host), Both(x, y));
    forall f | f in Collect(input, None, host).value ensures Small(f) {
      EntryOrigin(input, None, host, f);
      var r :| Collected(Both(x, y), r) && f == Shown(UNIX, r);
      BothPaths(x, y, r.path);
      NestedPaths(x, r.path);
      Spellings();
    }
  }

  /** Two different files that spell one path: some two listing orders give different streams. */
  lemma BackslashShowsOrder(x: Bytes, y: Bytes)
    requires x != y && |x| < U64 && |y| < U64
    ensures !OrderFree(Input(Both(x, y), None), None, UNIX)
  {
    var input, host := Input(Both(x, y), None), Host(Leading([]), UNIX);
    LeadingIsComplete([]);
    BothIsReadable(x, y, host.list);
    BothSeen(x, y);
    Spellings();
    var a, b := Record([OUTER, INNER], PLAIN, x), Record([SLASHED], PLAIN, y);
    BothPaths(x, y, a.path);
    NestedPaths(x, a.path);
    BothPaths(x, y, b.path);
    RecordIsEntry(input, None, host, a);
    RecordIsEntry(input, None, host, b);
    var all := Collect(input, None, host).value;
    var i :| 0 <= i < |all| && all[i] == Shown(UNIX, a);
    var j :| 0 <= j < |all| && all[j] == Shown(UNIX, b);
    assert !NoClash(all);
    StreamIgnoresOrderIff(input, None, host);
  }
}
