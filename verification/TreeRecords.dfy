/**
 What a walk collects, said of the tree itself: a record for every path that leads
 somewhere, and failure exactly where some path leads to something unacceptable.
 */
module TreeRecords {
  import opened Wrappers
  import opened Text
  import opened Framing
  import opened TreeModel

  function At(node: Node, path: seq<string>): Option<Node>
    decreases |path|
  {
    if path == [] then Some(node)
    else if node.Dir? && path[0] in node.children then At(node.children[path[0]], path[1..])
    else None
  }

  /** The record of a node: it depends on a directory only in that it is one. */
  function RecordOf(path: seq<string>, node: Node): Record {
    if node.File? then Record(path, ModeKind(node.exec), node.data) else Record(path, DIRECTORY, [])
  }

  /** A node that the walk does not fail on. */
  predicate Acceptable(v: View, path: seq<string>, node: Node) {
    node.Dir? || (node.File? && FileKind(v, path, node.exec).Some?)
  }

  /** Every path of the tree leads to an acceptable node. */
  ghost predicate Sound(v: View, base: seq<string>, node: Node) {
    forall q :: At(node, q).Some? ==> Acceptable(v, base + q, At(node, q).value)
  }

  lemma AtChild(node: Node, n: string, q: seq<string>)
    requires node.Dir?
    ensures At(node, [n] + q) == if n in node.children then At(node.children[n], q) else None
  {
    assert ([n] + q)[0] == n && ([n] + q)[1..] == q;
  }

  lemma SoundChild(v: View, base: seq<string>, node: Node, n: string)
    requires node.Dir? && n in node.children && Sound(v, base, node)
    ensures Sound(v, base + [n], node.children[n])
  {
    forall q | At(node.children[n], q).Some?
      ensures Acceptable(v, base + [n] + q, At(node.children[n], q).value) {
      AtChild(node, n, q);
      assert base + [n] + q == base + ([n] + q);
    }
  }

  /** Below the root nothing is left out. */
  lemma NotSkipped(v: View, path: seq<string>, n: string)
    requires path != []
    ensures !Skipped(v, path + [n])
  {
    assert |path + [n]| > 1;
  }

  lemma {:induction false} VisitAllSome(v: View, path: seq<string>, dir: Node, names: seq<string>)
    requires dir.Dir?
    ensures VisitAll(v, path, dir, names).Some? <==> forall n :: n in names ==> VisitOne(v, path, dir, n).Some?
    decreases |names|
  {
    if names != [] {
      VisitAllSome(v, path, dir, names[1..]);
      assert names[0] in names;
      assert forall n :: n in names <==> n == names[0] || n in names[1..];
    }
  }

  /** A walk below the root succeeds if and only if it meets nothing unacceptable. */
  lemma {:induction false} VisitSucceedsIff(v: View, path: seq<string>, node: Node)
    requires Complete(v.list) && path != []
    ensures Visit(v, path, node).Some? <==> Sound(v, path, node)
    decreases node
  {
    assert At(node, []).Some? && path + [] == path;
    if node.Dir? {
      var names := v.list(path, node.children.Keys);
      ListedOnce(names, node.children.Keys);
      VisitAllSome(v, path, node, names);
      forall n | n in node.children
        ensures VisitOne(v, path, node, n).Some? <==> Sound(v, path + [n], node.children[n]) {
        NotSkipped(v, path, n);
        VisitSucceedsIff(v, path + [n], node.children[n]);
      }
      SoundDirectory(v, path, node);
    } else {
      forall q | At(node, q).Some? ensures q == [] {}
    }
  }

  lemma SoundDirectory(v: View, path: seq<string>, node: Node)
    requires node.Dir?
    ensures Sound(v, path, node) <==> forall n :: n in node.children ==> Sound(v, path + [n], node.children[n])
  {
    if Sound(v, path, node) {
      forall n | n in node.children ensures Sound(v, path + [n], node.children[n]) { SoundChild(v, path, node, n); }
    }
    if forall n :: n in node.children ==> Sound(v, path + [n], node.children[n]) {
      forall q | At(node, q).Some? ensures Acceptable(v, path + q, At(node, q).value) {
        if q != [] {
          assert Sound(v, path + [q[0]], node.children[q[0]]);
          assert path + [q[0]] + q[1..] == path + q;
        }
      }
    }
  }

  /** The record belongs to the path it names, seen from a node at `base`. */
  ghost predicate Belongs(base: seq<string>, node: Node, r: Record) {
    base <= r.path && At(node, r.path[|base|..]).Some? && r == RecordOf(r.path, At(node, r.path[|base|..]).value)
  }

  lemma BelongsBelow(base: seq<string>, node: Node, r: Record)
    requires node.Dir?
    ensures Belongs(base, node, r)
            <==> r == RecordOf(base, node) || exists n :: n in node.children && Belongs(base + [n], node.children[n], r)
  {
    if r == RecordOf(base, node) {
      assert r.path[|base|..] == [];
    } else if Belongs(base, node, r) {
      var q := r.path[|base|..];
      assert r.path == base + q;
      assert q == [] ==> r.path == base;
      assert q[0] in node.children;
      assert r.path[|base + [q[0]]|..] == q[1..];
      assert base + [q[0]] <= r.path;
      assert Belongs(base + [q[0]], node.children[q[0]], r);
    }
    forall n | n in node.children && Belongs(base + [n], node.children[n], r) ensures Belongs(base, node, r) {
      var q := r.path[|base|..];
      assert q[0] == n && q[1..] == r.path[|base + [n]|..];
    }
  }

  /** A successful walk below the root collects exactly the records of its paths. */
  lemma {:induction false} VisitRecords(v: View, path: seq<string>, node: Node, r: Record)
    requires Complete(v.list) && path != [] && Visit(v, path, node).Some?
    ensures r in Visit(v, path, node).value <==> Belongs(path, node, r)
    decreases node
  {
    if node.Dir? {
      var names := v.list(path, node.children.Keys);
      ListedOnce(names, node.children.Keys);
      VisitAllMembers(v, path, node, names, r);
      forall n | n in node.children
        ensures r in VisitOne(v, path, node, n).value <==> Belongs(path + [n], node.children[n], r) {
        NotSkipped(v, path, n);
        VisitRecords(v, path + [n], node.children[n], r);
      }
      BelongsBelow(path, node, r);
      assert r in Visit(v, path, node).value
             <==> r == RecordOf(path, node) || r in VisitAll(v, path, node, names).value;
    } else {
      LeafRecord(path, node, r);
    }
  }

  lemma LeafRecord(path: seq<string>, node: Node, r: Record)
    requires node.File?
    ensures Belongs(path, node, r) <==> r == RecordOf(path, node)
  {
    if Belongs(path, node, r) {
      assert r.path[|path|..] == [];
      assert r.path == path;
    }
    if r == RecordOf(path, node) { assert r.path[|path|..] == []; }
  }

  // ----- The root -----

  /** The root without the entries that the walk never looks at. */
  function Hashed(spell: string -> string, root: map<string, Node>, excluded: Option<string>): map<string, Node> {
    map n | n in root && !Reserved(excluded, spell(n)) :: root[n]
  }

  function Walk(v: View, root: map<string, Node>): Option<seq<Record>> {
    VisitAll(v, [], Dir(root), v.list([], root.Keys))
  }

  /** The record of a path that leads somewhere in the hashed root. */
  ghost predicate Collected(seen: map<string, Node>, r: Record) {
    r.path != [] && At(Dir(seen), r.path).Some? && r == RecordOf(r.path, At(Dir(seen), r.path).value)
  }

  lemma OneAtRoot(v: View, root: map<string, Node>, n: string)
    requires Complete(v.list) && n in root
    ensures VisitOne(v, [], Dir(root), n).Some? <==> Reserved(v.excluded, v.spell(n)) || Sound(v, [n], root[n])
  {
    assert [] + [n] == [n];
    VisitSucceedsIff(v, [n], root[n]);
  }

  ghost predicate SoundBelow(v: View, seen: map<string, Node>) {
    forall q :: q != [] && At(Dir(seen), q).Some? ==> Acceptable(v, q, At(Dir(seen), q).value)
  }

  /** The whole walk succeeds if and only if it meets nothing unacceptable. */
  lemma WalkSucceedsIff(v: View, root: map<string, Node>)
    requires Complete(v.list)
    ensures Walk(v, root).Some? <==> SoundBelow(v, Hashed(v.spell, root, v.excluded))
  {
    var seen := Hashed(v.spell, root, v.excluded);
    var names := v.list([], root.Keys);
    ListedOnce(names, root.Keys);
    VisitAllSome(v, [], Dir(root), names);
    forall n | n in root ensures VisitOne(v, [], Dir(root), n).Some? <==> n !in seen || Sound(v, [n], seen[n]) {
      OneAtRoot(v, root, n);
    }
    SoundRoot(v, seen);
  }

  lemma SoundRoot(v: View, seen: map<string, Node>)
    ensures (forall n :: n in seen ==> Sound(v, [n], seen[n])) <==> SoundBelow(v, seen)
  {
    if forall n :: n in seen ==> Sound(v, [n], seen[n]) {
      forall q | q != [] && At(Dir(seen), q).Some? ensures Acceptable(v, q, At(Dir(seen), q).value) {
        assert Sound(v, [q[0]], seen[q[0]]);
        assert [q[0]] + q[1..] == q;
      }
    }
    if SoundBelow(v, seen) {
      forall n | n in seen ensures Sound(v, [n], seen[n]) { SoundFromRoot(v, seen, n); }
    }
  }

  lemma SoundFromRoot(v: View, seen: map<string, Node>, n: string)
    requires SoundBelow(v, seen) && n in seen
    ensures Sound(v, [n], seen[n])
  {
    forall q | At(seen[n], q).Some? ensures Acceptable(v, [n] + q, At(seen[n], q).value) {
      AtChild(Dir(seen), n, q);
      assert At(Dir(seen), [n] + q).Some?;
    }
  }

  /** A successful walk collects exactly the records of the hashed root. */
  lemma WalkRecords(v: View, root: map<string, Node>, r: Record)
    requires Complete(v.list) && Walk(v, root).Some?
    ensures r in Walk(v, root).value <==> Collected(Hashed(v.spell, root, v.excluded), r)
  {
    var seen := Hashed(v.spell, root, v.excluded);
    var names := v.list([], root.Keys);
    ListedOnce(names, root.Keys);
    VisitAllMembers(v, [], Dir(root), names, r);
    forall n | n in root
      ensures r in VisitOne(v, [], Dir(root), n).value <==> n in seen && Belongs([n], seen[n], r) {
      assert [] + [n] == [n];
      if n in seen { VisitRecords(v, [n], seen[n], r); }
    }
    RootBelongs(seen, r);
  }

  lemma RootBelongs(seen: map<string, Node>, r: Record)
    ensures Collected(seen, r) <==> exists n :: n in seen && Belongs([n], seen[n], r)
  {
    if Collected(seen, r) {
      assert r.path[|[r.path[0]]|..] == r.path[1..];
      assert Belongs([r.path[0]], seen[r.path[0]], r);
    }
  }

  lemma WalkDistinct(v: View, root: map<string, Node>)
    requires Complete(v.list) && Walk(v, root).Some?
    ensures DistinctRecords(Walk(v, root).value)
  {
    var names := v.list([], root.Keys);
    ListedOnce(names, root.Keys);
    forall n | n in names && VisitOne(v, [], Dir(root), n).Some?
      ensures DistinctRecords(VisitOne(v, [], Dir(root), n).value) {
      if !Skipped(v, [] + [n]) { VisitDistinct(v, [] + [n], root[n]); }
    }
    VisitAllDistinct(v, [], Dir(root), names);
  }

  // ----- Two trees with the same records -----

  /** What a path leads to, directories told apart from files only. */
  function Label(node: Node): Node { if node.Dir? then Dir(map[]) else node }

  function LabelAt(node: Node, path: seq<string>): Option<Node> {
    if At(node, path).None? then None else Some(Label(At(node, path).value))
  }

  /** A tree is determined by what its paths lead to. */
  lemma {:induction false} LabelsDetermine(a: Node, b: Node)
    requires forall q :: LabelAt(a, q) == LabelAt(b, q)
    ensures a == b
    decreases a
  {
    assert LabelAt(a, []) == LabelAt(b, []);
    if a.Dir? {
      forall n ensures n in a.children <==> n in b.children {
        AtChild(a, n, []);
        AtChild(b, n, []);
        assert LabelAt(a, [n] + []) == LabelAt(b, [n] + []);
      }
      assert a.children.Keys == b.children.Keys;
      forall n | n in a.children ensures a.children[n] == b.children[n] {
        forall q ensures LabelAt(a.children[n], q) == LabelAt(b.children[n], q) {
          AtChild(a, n, q);
          AtChild(b, n, q);
          assert LabelAt(a, [n] + q) == LabelAt(b, [n] + q);
        }
        LabelsDetermine(a.children[n], b.children[n]);
      }
    }
  }

  /** A root none of whose paths leads to a link or a special file. */
  ghost predicate Plain(seen: map<string, Node>) {
    forall q :: At(Dir(seen), q).Some? ==> At(Dir(seen), q).value.Dir? || At(Dir(seen), q).value.File?
  }

  /** Collected records determine the hashed root: names, types, modes and contents. */
  lemma RecordsDetermine(a: map<string, Node>, b: map<string, Node>)
    requires Plain(a) && Plain(b) && forall r :: Collected(a, r) <==> Collected(b, r)
    ensures a == b
  {
    forall q ensures LabelAt(Dir(a), q) == LabelAt(Dir(b), q) {
      if q != [] {
        if At(Dir(a), q).Some? { LabelCarries(a, b, q); }
        if At(Dir(b), q).Some? { LabelCarries(b, a, q); }
      }
    }
    LabelsDetermine(Dir(a), Dir(b));
  }

  lemma LabelCarries(a: map<string, Node>, b: map<string, Node>, q: seq<string>)
    requires Plain(a) && Plain(b) && forall r :: Collected(a, r) ==> Collected(b, r)
    requires q != [] && At(Dir(a), q).Some?
    ensures LabelAt(Dir(a), q) == LabelAt(Dir(b), q)
  {
    var r := RecordOf(q, At(Dir(a), q).value);
    assert Collected(a, r);
    assert Collected(b, r);
  }

  lemma WalkIsPlain(v: View, root: map<string, Node>)
    requires Complete(v.list) && Walk(v, root).Some?
    ensures Plain(Hashed(v.spell, root, v.excluded))
  {
    WalkSucceedsIff(v, root);
    var seen := Hashed(v.spell, root, v.excluded);
    forall q | At(Dir(seen), q).Some? ensures At(Dir(seen), q).value.Dir? || At(Dir(seen), q).value.File? {
      if q != [] { assert Acceptable(v, q, At(Dir(seen), q).value); }
    }
  }
}
