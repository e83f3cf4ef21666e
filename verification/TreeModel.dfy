/**
 The tree walk behind the canonical tree digest of crates/tapid-archive/src/lib.rs
 (`collect_tree`). Directories are listed in an arbitrary order.
 */
module TreeModel {
  import opened Wrappers
  import opened Ordering
  import opened Text
  import opened Framing

  datatype Node = File(exec: bool, data: Bytes) | Dir(children: map<string, Node>) | Link | Special

  /** One collected entry: its path from the root, type byte and contents. */
  datatype Record = Record(path: seq<string>, kind: Byte, data: Bytes)

  type Listing = (seq<string>, set<string>) -> seq<string>

  /** How a host lists a directory, and how it spells a file name as text. */
  datatype Host = Host(list: Listing, spell: string -> string)

  /** The executable manifest, the excluded root entry, and the host. */
  datatype View = View(manifest: Option<set<string>>, excluded: Option<string>, list: Listing, spell: string -> string)

  const TREE_MARK := ".tapid-tree"
  const MANIFEST := ".tapid-executable-modes"

  const PLAIN: Byte := 0 as char
  const DIRECTORY: Byte := 1 as char
  const EXECUTABLE: Byte := 2 as char
  const MANIFEST_KIND: Byte := 3 as char

  /** Every name of a directory is listed exactly once, in any order. */
  ghost predicate Complete(list: Listing) {
    forall p, s :: multiset(list(p, s)) == multiset(s)
  }

  /** A spelling that the walk leaves out below the root. */
  predicate Reserved(excluded: Option<string>, text: string) {
    text == TREE_MARK || text == MANIFEST || excluded == Some(text)
  }

  predicate Skipped(v: View, path: seq<string>) {
    |path| == 1 && Reserved(v.excluded, v.spell(path[0]))
  }

  /** A path as the walk spells it, name by name. */
  function Rel(spell: string -> string, path: seq<string>): string {
    if path == [] then ""
    else if |path| == 1 then spell(path[0])
    else Rel(spell, path[..|path| - 1]) + "/" + spell(path[|path| - 1])
  }

  /** Unix spelling of names that are text: a backslash becomes a separator. */
  const UNIX: string -> string := (n: string) => Slashed(n)

  function ModeKind(exec: bool): Byte { if exec then EXECUTABLE else PLAIN }

  /** The type byte of a file; None when its mode contradicts the manifest. */
  function FileKind(v: View, path: seq<string>, exec: bool): Option<Byte> {
    if v.manifest.None? then Some(ModeKind(exec))
    else
      var kind := ModeKind(Rel(v.spell, path) in v.manifest.value);
      if kind != ModeKind(exec) then None else Some(kind)
  }

  function Visit(v: View, path: seq<string>, node: Node): Option<seq<Record>>
    decreases node, 1, 0
  {
    match node
    case File(exec, data) =>
      var kind := FileKind(v, path, exec);
      if kind.None? then None else Some([Record(path, kind.value, data)])
    case Dir(children) =>
      var inside := VisitAll(v, path, node, v.list(path, children.Keys));
      if inside.None? then None else Some([Record(path, DIRECTORY, [])] + inside.value)
    case Link => None
    case Special => None
  }

  /** What one name of a directory contributes. */
  function VisitOne(v: View, path: seq<string>, dir: Node, name: string): Option<seq<Record>>
    requires dir.Dir?
    decreases dir, 0, 0
  {
    if name !in dir.children || Skipped(v, path + [name]) then Some([])
    else Visit(v, path + [name], dir.children[name])
  }

  function VisitAll(v: View, path: seq<string>, dir: Node, names: seq<string>): Option<seq<Record>>
    requires dir.Dir?
    decreases dir, 0, 1 + |names|
  {
    if names == [] then Some([])
    else
      var first := VisitOne(v, path, dir, names[0]);
      var rest := VisitAll(v, path, dir, names[1..]);
      if first.None? || rest.None? then None else Some(first.value + rest.value)
  }

  // ----- Listing order does not matter -----

  /** Two outcomes that agree up to order. */
  ghost predicate Alike(a: Option<seq<Record>>, b: Option<seq<Record>>) {
    a.Some? == b.Some? && (a.Some? ==> multiset(a.value) == multiset(b.value))
  }

  lemma {:induction false} PullFront(v: View, path: seq<string>, dir: Node, x: seq<string>, a: string, y: seq<string>)
    requires dir.Dir?
    ensures Alike(VisitAll(v, path, dir, x + [a] + y), VisitAll(v, path, dir, [a] + (x + y)))
    decreases |x|
  {
    if x == [] {
      assert x + [a] + y == [a] + (x + y);
    } else {
      var whole, moved := x + [a] + y, [a] + (x + y);
      assert whole[0] == x[0] && whole[1..] == x[1..] + [a] + y;
      assert moved[1..] == x + y && (x + y)[0] == x[0] && (x + y)[1..] == x[1..] + y;
      PullFront(v, path, dir, x[1..], a, y);
      var inner := [a] + (x[1..] + y);
      assert inner[0] == a && inner[1..] == x[1..] + y;
    }
  }

  /** Two directories whose names contribute alike, listed in any two orders. */
  lemma {:induction false} VisitAllOrder(v: View, w: View, path: seq<string>, a: Node, b: Node, ns: seq<string>,
                                         ms: seq<string>)
    requires a.Dir? && b.Dir? && multiset(ns) == multiset(ms)
    requires forall n :: n in ns ==> Alike(VisitOne(v, path, a, n), VisitOne(w, path, b, n))
    ensures Alike(VisitAll(v, path, a, ns), VisitAll(w, path, b, ms))
    decreases |ns|
  {
    assert |multiset(ns)| == |ns| && |multiset(ms)| == |ms|;
    if ns != [] {
      var x, y := SplitAround(ns, ms);
      PullFront(w, path, b, x, ns[0], y);
      assert forall n :: n in ns[1..] ==> n in ns;
      VisitAllOrder(v, w, path, a, b, ns[1..], x + y);
      var pulled := [ns[0]] + (x + y);
      assert pulled[0] == ns[0] && pulled[1..] == x + y;
    }
  }

  ghost predicate SameView(v: View, w: View) {
    v.manifest == w.manifest && v.excluded == w.excluded && v.spell == w.spell
  }

  lemma {:induction false} VisitOrder(v: View, w: View, path: seq<string>, node: Node)
    requires SameView(v, w) && Complete(v.list) && Complete(w.list)
    ensures Alike(Visit(v, path, node), Visit(w, path, node))
    decreases node
  {
    if node.Dir? {
      forall n | n in node.children ensures Alike(VisitOne(v, path, node, n), VisitOne(w, path, node, n)) {
        VisitOrder(v, w, path + [n], node.children[n]);
      }
      var ns, ms := v.list(path, node.children.Keys), w.list(path, node.children.Keys);
      forall n | n in ns ensures n in node.children { assert n in multiset(ns); }
      VisitAllOrder(v, w, path, node, node, ns, ms);
    }
  }

  // ----- Where records come from -----

  lemma {:induction false} VisitAllMembers(v: View, path: seq<string>, dir: Node, names: seq<string>, r: Record)
    requires dir.Dir? && VisitAll(v, path, dir, names).Some?
    ensures r in VisitAll(v, path, dir, names).value
            <==> exists n :: n in names && VisitOne(v, path, dir, n).Some? && r in VisitOne(v, path, dir, n).value
    ensures forall n :: n in names ==> VisitOne(v, path, dir, n).Some?
    decreases |names|
  {
    if names != [] {
      VisitAllMembers(v, path, dir, names[1..], r);
      assert forall n :: n in names <==> n == names[0] || n in names[1..];
      var first, rest := VisitOne(v, path, dir, names[0]).value, VisitAll(v, path, dir, names[1..]).value;
      assert r in VisitAll(v, path, dir, names).value <==> r in first || r in rest;
      if r in first { assert names[0] in names; }
      if r in rest {
        var n :| n in names[1..] && VisitOne(v, path, dir, n).Some? && r in VisitOne(v, path, dir, n).value;
        assert n in names;
      }
    }
  }

  /** Records of a subtree lie at or below its path. */
  lemma {:induction false} VisitBelow(v: View, path: seq<string>, node: Node, r: Record)
    requires Complete(v.list) && Visit(v, path, node).Some? && r in Visit(v, path, node).value
    ensures path <= r.path
    ensures r.path == path ==> r == Visit(v, path, node).value[0]
    decreases node
  {
    if node.Dir? && r != Record(path, DIRECTORY, []) {
      var names := v.list(path, node.children.Keys);
      VisitAllMembers(v, path, node, names, r);
      var n :| n in names && VisitOne(v, path, node, n).Some? && r in VisitOne(v, path, node, n).value;
      VisitBelow(v, path + [n], node.children[n], r);
      assert path <= path + [n];
    }
  }

  /** Records under one name of a directory carry that name in the next position. */
  lemma OneBelow(v: View, path: seq<string>, dir: Node, n: string, r: Record)
    requires Complete(v.list) && dir.Dir? && VisitOne(v, path, dir, n).Some? && r in VisitOne(v, path, dir, n).value
    ensures n in dir.children && !Skipped(v, path + [n]) && path + [n] <= r.path && r.path[|path|] == n
  {
    VisitBelow(v, path + [n], dir.children[n], r);
  }

  ghost predicate DistinctRecords(s: seq<Record>) {
    forall i, j :: 0 <= i < j < |s| ==> s[i].path != s[j].path
  }

  lemma {:induction false} VisitAllDistinct(v: View, path: seq<string>, dir: Node, names: seq<string>)
    requires Complete(v.list) && dir.Dir? && VisitAll(v, path, dir, names).Some?
    requires forall i, j :: 0 <= i < j < |names| ==> names[i] != names[j]
    requires forall n :: n in names && VisitOne(v, path, dir, n).Some? ==>
               DistinctRecords(VisitOne(v, path, dir, n).value)
    ensures DistinctRecords(VisitAll(v, path, dir, names).value)
    decreases |names|
  {
    if names != [] {
      var first, rest := VisitOne(v, path, dir, names[0]).value, VisitAll(v, path, dir, names[1..]).value;
      assert forall n :: n in names[1..] ==> n in names;
      VisitAllDistinct(v, path, dir, names[1..]);
      forall a, b | a in first && b in rest ensures a.path != b.path {
        OneBelow(v, path, dir, names[0], a);
        VisitAllMembers(v, path, dir, names[1..], b);
        var n :| n in names[1..] && VisitOne(v, path, dir, n).Some? && b in VisitOne(v, path, dir, n).value;
        OneBelow(v, path, dir, n, b);
        var j :| 0 <= j < |names[1..]| && names[1..][j] == n;
        assert names[j + 1] == n;
      }
      ConcatDistinct(first, rest);
    }
  }

  lemma ConcatDistinct(a: seq<Record>, b: seq<Record>)
    requires DistinctRecords(a) && DistinctRecords(b)
    requires forall x, y :: x in a && y in b ==> x.path != y.path
    ensures DistinctRecords(a + b)
  {
    forall i, j | 0 <= i < j < |a + b| ensures (a + b)[i].path != (a + b)[j].path {
      if i < |a| && j >= |a| { assert a[i] in a && b[j - |a|] in b; }
    }
  }

  lemma ListedOnce(names: seq<string>, s: set<string>)
    requires multiset(names) == multiset(s)
    ensures forall i, j :: 0 <= i < j < |names| ==> names[i] != names[j]
    ensures forall n :: n in names <==> n in s
  {
    forall n ensures n in names <==> n in s { assert n in multiset(names) <==> n in multiset(s); }
    forall i, j | 0 <= i < j < |names| ensures names[i] != names[j] {
      if names[i] == names[j] { TwiceCounts(names, i, j); }
    }
  }

  /** No two records of a tree have the same path. */
  lemma {:induction false} VisitDistinct(v: View, path: seq<string>, node: Node)
    requires Complete(v.list) && Visit(v, path, node).Some?
    ensures DistinctRecords(Visit(v, path, node).value)
    decreases node
  {
    if node.Dir? {
      var names := v.list(path, node.children.Keys);
      ListedOnce(names, node.children.Keys);
      forall n | n in names && VisitOne(v, path, node, n).Some?
        ensures DistinctRecords(VisitOne(v, path, node, n).value) {
        if !Skipped(v, path + [n]) { VisitDistinct(v, path + [n], node.children[n]); }
      }
      var inside := VisitAll(v, path, node, names).value;
      VisitAllDistinct(v, path, node, names);
      var self := Record(path, DIRECTORY, []);
      forall x, y | x in [self] && y in inside ensures x.path != y.path {
        VisitAllMembers(v, path, node, names, y);
        var n :| n in names && VisitOne(v, path, node, n).Some? && y in VisitOne(v, path, node, n).value;
        OneBelow(v, path, node, n, y);
      }
      ConcatDistinct([self], inside);
    }
  }
}
