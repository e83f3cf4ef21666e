/** Taking an entry out of a tree and putting one in, said by what every path leads to. */
module TreeEdits {
  import opened Wrappers
  import opened TreeModel
  import opened TreeRecords

  function Remove(node: Node, path: seq<string>): Node
    requires path != [] && At(node, path).Some?
    decreases |path|
  {
    if |path| == 1 then Dir(node.children - {path[0]})
    else Dir(node.children[path[0] := Remove(node.children[path[0]], path[1..])])
  }

  /** The directory that `path` stands in exists. */
  predicate CanPut(node: Node, path: seq<string>)
    decreases |path|
  {
    path != [] && node.Dir? && (|path| == 1 || (path[0] in node.children && CanPut(node.children[path[0]], path[1..])))
  }

  function Put(node: Node, path: seq<string>, sub: Node): (r: Node)
    requires CanPut(node, path)
    ensures r.Dir?
    decreases |path|
  {
    if |path| == 1 then Dir(node.children[path[0] := sub])
    else Dir(node.children[path[0] := Put(node.children[path[0]], path[1..], sub)])
  }

  lemma PrefixTail(p: seq<string>, q: seq<string>)
    requires p != [] && q != [] && p[0] == q[0]
    ensures p <= q <==> p[1..] <= q[1..]
  {
    assert p == [p[0]] + p[1..] && q == [q[0]] + q[1..];
  }

  lemma {:induction false} RemoveLabels(node: Node, path: seq<string>, q: seq<string>)
    requires path != [] && At(node, path).Some?
    ensures LabelAt(Remove(node, path), q) == if path <= q then None else LabelAt(node, q)
    decreases |path|
  {
    if q != [] && q[0] == path[0] {
      PrefixTail(path, q);
      if |path| > 1 { RemoveLabels(node.children[path[0]], path[1..], q[1..]); }
    }
  }

  lemma {:induction false} PutLabels(node: Node, path: seq<string>, sub: Node, q: seq<string>)
    requires CanPut(node, path)
    ensures LabelAt(Put(node, path, sub), q) == if path <= q then LabelAt(sub, q[|path|..]) else LabelAt(node, q)
    decreases |path|
  {
    if q != [] && q[0] == path[0] {
      PrefixTail(path, q);
      if |path| > 1 {
        PutLabels(node.children[path[0]], path[1..], sub, q[1..]);
        if path <= q { assert q[1..][|path| - 1..] == q[|path|..]; }
      }
    }
  }

  lemma {:induction false} AtAppend(node: Node, p: seq<string>, q: seq<string>)
    ensures At(node, p + q) == if At(node, p).Some? then At(At(node, p).value, q) else None
    decreases |p|
  {
    if p == [] {
      assert p + q == q;
    } else {
      assert (p + q)[0] == p[0] && (p + q)[1..] == p[1..] + q;
      if node.Dir? && p[0] in node.children { AtAppend(node.children[p[0]], p[1..], q); }
    }
  }

  lemma {:induction false} CanPutIff(node: Node, d: seq<string>, n: string)
    ensures CanPut(node, d + [n]) <==> At(node, d).Some? && At(node, d).value.Dir?
    decreases |d|
  {
    if d == [] {
      assert d + [n] == [n];
    } else {
      assert (d + [n])[0] == d[0] && (d + [n])[1..] == d[1..] + [n];
      if node.Dir? && d[0] in node.children { CanPutIff(node.children[d[0]], d[1..], n); }
    }
  }

  lemma LastStep(p: seq<string>) returns (d: seq<string>, n: string)
    requires p != []
    ensures p == d + [n]
  {
    d, n := p[..|p| - 1], p[|p| - 1];
  }

  /** What stands can be replaced. */
  lemma StandsInDirectory(node: Node, p: seq<string>)
    requires p != [] && At(node, p).Some?
    ensures CanPut(node, p)
  {
    var d, n := LastStep(p);
    AtAppend(node, d, [n]);
    CanPutIff(node, d, n);
  }

  /** Two trees with the same label at a place's directory can both be given that place. */
  lemma CanPutCarries(a: Node, b: Node, p: seq<string>)
    requires CanPut(a, p)
    requires forall d :: d < p ==> LabelAt(b, d) == LabelAt(a, d)
    ensures CanPut(b, p)
  {
    var d, n := LastStep(p);
    CanPutIff(a, d, n);
    CanPutIff(b, d, n);
    assert d < p;
    assert LabelAt(b, d) == LabelAt(a, d);
  }

  lemma AncestorStands(node: Node, p: seq<string>, q: seq<string>)
    requires p <= q && At(node, q).Some?
    ensures At(node, p).Some? && (p < q ==> At(node, p).value.Dir?)
  {
    assert q == p + q[|p|..];
    AtAppend(node, p, q[|p|..]);
  }

  lemma HashedLabels(spell: string -> string, root: map<string, Node>, q: seq<string>)
    requires q != []
    ensures LabelAt(Dir(Hashed(spell, root, None)), q)
            == if Reserved(None, spell(q[0])) then None else LabelAt(Dir(root), q)
  {
  }

  // ----- Moving one entry -----

  function Moved(root: map<string, Node>, p: seq<string>, t: seq<string>): map<string, Node>
    requires p != [] && At(Dir(root), p).Some? && CanPut(Remove(Dir(root), p), t)
  {
    Put(Remove(Dir(root), p), t, At(Dir(root), p).value).children
  }

  lemma MovedLabels(root: map<string, Node>, p: seq<string>, t: seq<string>, q: seq<string>)
    requires p != [] && At(Dir(root), p).Some? && CanPut(Remove(Dir(root), p), t)
    ensures LabelAt(Dir(Moved(root, p, t)), q)
            == if t <= q then LabelAt(Dir(root), p + q[|t|..]) else if p <= q then None else LabelAt(Dir(root), q)
  {
    PutLabels(Remove(Dir(root), p), t, At(Dir(root), p).value, q);
    RemoveLabels(Dir(root), p, q);
    if t <= q { AtAppend(Dir(root), p, q[|t|..]); }
  }

  lemma MovePossible(root: map<string, Node>, p: seq<string>, t: seq<string>)
    requires p != [] && At(Dir(root), p).Some? && CanPut(Dir(root), t) && !(p <= t)
    ensures CanPut(Remove(Dir(root), p), t)
  {
    forall d | d < t ensures LabelAt(Remove(Dir(root), p), d) == LabelAt(Dir(root), d) {
      RemoveLabels(Dir(root), p, d);
    }
    CanPutCarries(Dir(root), Remove(Dir(root), p), t);
  }

  // ----- Exchanging two entries -----

  /** Where a path leads once the entries at `p` and `o` have been exchanged. */
  function Exchange(p: seq<string>, o: seq<string>, q: seq<string>): seq<string> {
    if p <= q then o + q[|p|..] else if o <= q then p + q[|o|..] else q
  }

  function Exchanged(root: map<string, Node>, p: seq<string>, o: seq<string>): map<string, Node>
    requires CanPut(Dir(root), p) && At(Dir(root), p).Some? && At(Dir(root), o).Some?
    requires CanPut(Put(Dir(root), p, At(Dir(root), o).value), o)
  {
    Put(Put(Dir(root), p, At(Dir(root), o).value), o, At(Dir(root), p).value).children
  }

  lemma ExchangePossible(root: map<string, Node>, p: seq<string>, o: seq<string>)
    requires p != [] && o != [] && At(Dir(root), p).Some? && At(Dir(root), o).Some? && !(p <= o)
    ensures CanPut(Dir(root), p) && CanPut(Put(Dir(root), p, At(Dir(root), o).value), o)
  {
    StandsInDirectory(Dir(root), p);
    StandsInDirectory(Dir(root), o);
    var first := Put(Dir(root), p, At(Dir(root), o).value);
    forall d | d < o ensures LabelAt(first, d) == LabelAt(Dir(root), d) {
      PutLabels(Dir(root), p, At(Dir(root), o).value, d);
    }
    CanPutCarries(Dir(root), first, o);
  }

  lemma ExchangedLabels(root: map<string, Node>, p: seq<string>, o: seq<string>, q: seq<string>)
    requires CanPut(Dir(root), p) && At(Dir(root), p).Some? && At(Dir(root), o).Some?
    requires CanPut(Put(Dir(root), p, At(Dir(root), o).value), o) && !(p <= o) && !(o <= p)
    ensures LabelAt(Dir(Exchanged(root, p, o)), q) == LabelAt(Dir(root), Exchange(p, o, q))
  {
    var a, b := At(Dir(root), p).value, At(Dir(root), o).value;
    PutLabels(Put(Dir(root), p, b), o, a, q);
    PutLabels(Dir(root), p, b, q);
    if p <= q && o <= q { Comparable(p, o, q); }
    if p <= q { AtAppend(Dir(root), o, q[|p|..]); }
    if o <= q { AtAppend(Dir(root), p, q[|o|..]); }
  }

  lemma Comparable(p: seq<string>, o: seq<string>, q: seq<string>)
    requires p <= q && o <= q
    ensures p <= o || o <= p
  {
    if |p| <= |o| { assert o[..|p|] == q[..|p|] == p; } else { assert p[..|o|] == q[..|o|] == o; }
  }
}
