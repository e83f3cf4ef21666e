/**
 Exactly which trees share their digest stream with another tree: those with an entry
 that can stand in a free place under the same spelling, or with two entries of one
 spelling and different types that can be exchanged.
 */
module TreeCollisions {
  import opened Wrappers
  import opened Ordering
  import opened Text
  import opened Framing
  import opened TreeModel
  import opened TreeRecords
  import opened TreeStream
  import opened TreeTheorems
  import opened TreeEdits
  import opened TreeRearrangement

  // ----- Spelling -----

  lemma RelGrows(spell: string -> string, p: seq<string>, n: string)
    requires p != []
    ensures Rel(spell, p + [n]) == Rel(spell, p) + "/" + spell(n)
    ensures |Rel(spell, p)| < |Rel(spell, p + [n])| && '/' in Rel(spell, p + [n])
  {
    var q := p + [n];
    assert q[..|q| - 1] == p;
    var text := Rel(spell, p) + "/" + spell(n);
    assert text[|Rel(spell, p)|] == '/';
  }

  lemma {:induction false} RelLonger(spell: string -> string, p: seq<string>, q: seq<string>)
    requires p != [] && p <= q && p != q
    ensures |Rel(spell, p)| < |Rel(spell, q)|
    decreases |q|
  {
    var front := q[..|q| - 1];
    assert q == front + [q[|q| - 1]] && p <= front;
    RelGrows(spell, front, q[|q| - 1]);
    if p != front { RelLonger(spell, p, front); }
  }

  lemma {:induction false} RelSame(spell: string -> string, p: seq<string>, q: seq<string>, s: seq<string>)
    requires p != [] && q != [] && Rel(spell, p) == Rel(spell, q)
    ensures Rel(spell, p + s) == Rel(spell, q + s)
    decreases |s|
  {
    if s == [] {
      assert p + s == p && q + s == q;
    } else {
      var front, last := s[..|s| - 1], s[|s| - 1];
      RelSame(spell, p, q, front);
      assert p + s == (p + front) + [last] && q + s == (q + front) + [last];
      RelGrows(spell, p + front, last);
      RelGrows(spell, q + front, last);
    }
  }

  /** A spelling with a separator is never one that the walk leaves out. */
  lemma UnreservedRel(spell: string -> string, p: seq<string>)
    requires p != [] && (|p| == 1 ==> !Reserved(None, spell(p[0])))
    ensures !Reserved(None, Rel(spell, p))
  {
    if |p| > 1 {
      var d, n := LastStep(p);
      RelGrows(spell, d, n);
      SlashIsUnreserved(Rel(spell, p));
    }
  }

  lemma SlashIsUnreserved(text: string)
    requires '/' in text
    ensures !Reserved(None, text)
  {
    assert '/' !in TREE_MARK && '/' !in MANIFEST;
  }

  // ----- The condition -----

  ghost predicate LegalNames(legal: string -> bool, seen: map<string, Node>) {
    forall q :: q != [] && At(Dir(seen), q).Some? ==> legal(q[|q| - 1])
  }

  /** The executable manifest names this entry or something inside it. */
  ghost predicate Pinned(lines: Option<seq<string>>, p: seq<string>) {
    lines.Some? && exists i :: 0 <= i < |lines.value| && p <= Split(lines.value[i], '/')
  }

  /** An entry that is hashed, and that the manifest does not hold where it is. */
  ghost predicate Loose(input: Input, spell: string -> string, p: seq<string>) {
    p != [] && At(Dir(Hashed(spell, input.root, None)), p).Some? && !Pinned(input.lines, p)
  }

  /** The entry at `p` could stand at `t`, which is free, and be spelled the same. */
  ghost predicate Moves(input: Input, spell: string -> string, legal: string -> bool, p: seq<string>, t: seq<string>) {
    && Loose(input, spell, p)
    && CanPut(Dir(Hashed(spell, input.root, None)), t) && At(Dir(Hashed(spell, input.root, None)), t).None?
    && legal(t[|t| - 1]) && Rel(spell, t) == Rel(spell, p)
  }

  function TypeAt(seen: map<string, Node>, p: seq<string>): Byte
    requires At(Dir(seen), p).Some?
  {
    RecordOf(p, At(Dir(seen), p).value).kind
  }

  /** Two entries of one spelling and different types. */
  ghost predicate Swaps(input: Input, spell: string -> string, p: seq<string>, o: seq<string>) {
    && Loose(input, spell, p) && Loose(input, spell, o) && Rel(spell, o) == Rel(spell, p)
    && TypeAt(Hashed(spell, input.root, None), p) != TypeAt(Hashed(spell, input.root, None), o)
  }

  ghost predicate Movable(input: Input, spell: string -> string, legal: string -> bool) {
    exists p, t :: Moves(input, spell, legal, p, t)
  }

  ghost predicate Swappable(input: Input, spell: string -> string) {
    exists p, o :: Swaps(input, spell, p, o)
  }

  /** Another readable tree with the same stream. */
  ghost predicate Collides(a: Input, ha: Host, b: Input, hb: Host, legal: string -> bool) {
    && Readable(b, None, hb) && hb.spell == ha.spell
    && LegalNames(legal, Seen(b, None, hb))
    && Stream(b, None, hb) == Stream(a, None, ha)
    && (Seen(a, None, ha) != Seen(b, None, hb) || a.lines != b.lines)
  }

  // ----- If: a rearranged tree collides -----

  /** Paths of one spelling lie apart, or are the same. */
  lemma Apart(spell: string -> string, p: seq<string>, t: seq<string>)
    requires p != [] && t != [] && Rel(spell, t) == Rel(spell, p) && t != p
    ensures !(p <= t) && !(t <= p)
  {
    if p <= t { RelLonger(spell, p, t); }
    if t <= p { RelLonger(spell, t, p); }
  }

  /** No manifest line leads into an entry that moves, so every line still leads to its file. */
  lemma ManifestSurvives(input: Input, root: map<string, Node>, p: seq<string>, t: seq<string>)
    requires input.lines.Some? && ManifestOk(input.root, input.lines.value)
    requires forall q :: q != [] && At(Dir(input.root), q).Some? && !(p <= q) && !(t <= q)
                         ==> LabelAt(Dir(root), q) == LabelAt(Dir(input.root), q)
    requires !Pinned(input.lines, p)
    requires Pinned(input.lines, t) ==> At(Dir(input.root), t).None?
    ensures ManifestOk(root, input.lines.value)
  {
    var lines := input.lines.value;
    forall i | 0 <= i < |lines| ensures IsFile(root, lines[i]) {
      var q := Split(lines[i], '/');
      assert IsFile(input.root, lines[i]) && !(p <= q);
      if t <= q { AncestorStands(Dir(input.root), t, q); }
      assert LabelAt(Dir(root), q) == LabelAt(Dir(input.root), q);
    }
  }

  /** The hashed part of a root whose other entries have not changed. */
  lemma SeenUnchanged(spell: string -> string, root: map<string, Node>, p: seq<string>)
    requires p != [] && At(Dir(Hashed(spell, root, None)), p).Some?
    ensures !Reserved(None, spell(p[0])) && At(Dir(root), p) == At(Dir(Hashed(spell, root, None)), p)
  {
    HashedLabels(spell, root, p);
  }

  // ----- Moving -----

  lemma TargetUnreserved(input: Input, spell: string -> string, legal: string -> bool, p: seq<string>, t: seq<string>)
    requires Moves(input, spell, legal, p, t)
    ensures !Reserved(None, spell(t[0])) && At(Dir(input.root), t).None? && CanPut(Dir(input.root), t)
  {
    var seen := Hashed(spell, input.root, None);
    SeenUnchanged(spell, input.root, p);
    var d, n := LastStep(t);
    CanPutIff(Dir(seen), d, n);
    CanPutIff(Dir(input.root), d, n);
    if d == [] { UnreservedRel(spell, p); } else { SeenUnchanged(spell, input.root, d); }
    HashedLabels(spell, input.root, t);
  }

  /** What the paths of the hashed root lead to after a move. */
  lemma MovedSeen(input: Input, spell: string -> string, legal: string -> bool, p: seq<string>, t: seq<string>,
                  q: seq<string>)
    requires Moves(input, spell, legal, p, t) && q != []
    requires At(Dir(input.root), p).Some? && CanPut(Remove(Dir(input.root), p), t)
    ensures var seen := Hashed(spell, input.root, None);
            LabelAt(Dir(Hashed(spell, Moved(input.root, p, t), None)), q)
            == if t <= q then LabelAt(Dir(seen), p + q[|t|..]) else if p <= q then None else LabelAt(Dir(seen), q)
  {
    MovedLabels(input.root, p, t, q);
    HashedLabels(spell, Moved(input.root, p, t), q);
    HashedLabels(spell, input.root, q);
    if t <= q {
      TargetUnreserved(input, spell, legal, p, t);
      SeenUnchanged(spell, input.root, p);
      HashedLabels(spell, input.root, p + q[|t|..]);
    }
  }

  function Forth(p: seq<string>, t: seq<string>): Route {
    (q: seq<string>) => if p <= q then t + q[|p|..] else q
  }

  lemma MoveCarries(spell: string -> string, was: map<string, Node>, now: map<string, Node>, p: seq<string>,
                    t: seq<string>, q: seq<string>)
    requires p != [] && t != [] && Rel(spell, t) == Rel(spell, p) && !(p <= t) && !(t <= p) && At(Dir(was), t).None?
    requires forall q :: q != [] ==> LabelAt(Dir(now), q) == if t <= q then LabelAt(Dir(was), p + q[|t|..])
                                                            else if p <= q then None else LabelAt(Dir(was), q)
    requires q != []
    ensures At(Dir(was), q).Some? ==> Carries(spell, was, q, now, Forth(p, t)(q)) && Forth(t, p)(Forth(p, t)(q)) == q
    ensures At(Dir(now), q).Some? ==> Carries(spell, now, q, was, Forth(t, p)(q)) && Forth(p, t)(Forth(t, p)(q)) == q
  {
    if p <= q {
      assert q == p + q[|p|..] && (t + q[|p|..])[|t|..] == q[|p|..];
      RelSame(spell, p, t, q[|p|..]);
    }
    if t <= q {
      assert q == t + q[|t|..] && (p + q[|t|..])[|p|..] == q[|t|..];
      RelSame(spell, p, t, q[|t|..]);
      AtAppend(Dir(was), t, q[|t|..]);
      if p <= q { Comparable(p, t, q); }
    }
  }

  lemma MoveRearranges(input: Input, spell: string -> string, legal: string -> bool, p: seq<string>, t: seq<string>)
    requires Moves(input, spell, legal, p, t)
    requires At(Dir(input.root), p).Some? && CanPut(Remove(Dir(input.root), p), t)
    ensures Rearranges(spell, Hashed(spell, input.root, None), Hashed(spell, Moved(input.root, p, t), None),
        Forth(p, t), Forth(t, p))
  {
    var was, now := Hashed(spell, input.root, None), Hashed(spell, Moved(input.root, p, t), None);
    Apart(spell, p, t);
    forall q | q != []
      ensures LabelAt(Dir(now), q) == if t <= q then LabelAt(Dir(was), p + q[|t|..])
                                      else if p <= q then None else LabelAt(Dir(was), q) {
      MovedSeen(input, spell, legal, p, t, q);
    }
    forall q | q != []
      ensures At(Dir(was), q).Some? ==> Carries(spell, was, q, now, Forth(p, t)(q)) && Forth(t, p)(Forth(p, t)(q)) == q
      ensures At(Dir(now), q).Some? ==>
                Carries(spell, now, q, was, Forth(t, p)(q)) && Forth(p, t)(Forth(t, p)(q)) == q {
      MoveCarries(spell, was, now, p, t, q);
    }
  }

  lemma MovedIsLegal(legal: string -> bool, was: map<string, Node>, now: map<string, Node>, p: seq<string>,
                     t: seq<string>)
    requires LegalNames(legal, was) && t != [] && legal(t[|t| - 1])
    requires forall q :: q != [] ==> LabelAt(Dir(now), q) == if t <= q then LabelAt(Dir(was), p + q[|t|..])
                                                            else if p <= q then None else LabelAt(Dir(was), q)
    ensures LegalNames(legal, now)
  {
    forall q | q != [] && At(Dir(now), q).Some? ensures legal(q[|q| - 1]) {
      assert LabelAt(Dir(now), q).Some?;
      if t <= q && q != t {
        var o := p + q[|t|..];
        assert At(Dir(was), o).Some? && o[|o| - 1] == q[|q| - 1];
      }
    }
  }

  lemma MovedManifest(input: Input, p: seq<string>, t: seq<string>)
    requires input.lines.Some? && ManifestOk(input.root, input.lines.value) && !Pinned(input.lines, p)
    requires p != [] && At(Dir(input.root), p).Some? && CanPut(Remove(Dir(input.root), p), t)
             && At(Dir(input.root), t).None?
    ensures ManifestOk(Moved(input.root, p, t), input.lines.value)
  {
    forall q | q != [] && At(Dir(input.root), q).Some? && !(p <= q) && !(t <= q)
      ensures LabelAt(Dir(Moved(input.root, p, t)), q) == LabelAt(Dir(input.root), q) {
      MovedLabels(input.root, p, t, q);
    }
    ManifestSurvives(input, Moved(input.root, p, t), p, t);
  }

  lemma MovableCollides(input: Input, host: Host, legal: string -> bool, p: seq<string>,
                        t: seq<string>) returns (other: Input)
    requires Readable(input, None, host) && NoClash(Collect(input, None, host).value)
    requires LegalNames(legal, Seen(input, None, host)) && Moves(input, host.spell, legal, p, t)
    ensures Collides(input, host, other, host, legal)
  {
    SeenUnchanged(host.spell, input.root, p);
    TargetUnreserved(input, host.spell, legal, p, t);
    Apart(host.spell, p, t);
    MovePossible(input.root, p, t);
    other := Input(Moved(input.root, p, t), input.lines);
    MoveRearranges(input, host.spell, legal, p, t);
    if input.lines.Some? { MovedManifest(input, p, t); }
    SameStreamAfter(input, other, host, Forth(p, t), Forth(t, p));
    forall q | q != []
      ensures LabelAt(Dir(Seen(other, None, host)), q)
              == if t <= q then LabelAt(Dir(Seen(input, None, host)), p + q[|t|..])
                 else if p <= q then None else LabelAt(Dir(Seen(input, None, host)), q) {
      MovedSeen(input, host.spell, legal, p, t, q);
    }
    MovedIsLegal(legal, Seen(input, None, host), Seen(other, None, host), p, t);
    assert LabelAt(Dir(Seen(other, None, host)), p).None? && LabelAt(Dir(Seen(input, None, host)), p).Some?;
  }

  // ----- Exchanging -----

  lemma ExchangedSeen(input: Input, spell: string -> string, p: seq<string>, o: seq<string>, q: seq<string>)
    requires Swaps(input, spell, p, o) && q != [] && !(p <= o) && !(o <= p)
    requires CanPut(Dir(input.root), p) && At(Dir(input.root), p).Some? && At(Dir(input.root), o).Some?
    requires CanPut(Put(Dir(input.root), p, At(Dir(input.root), o).value), o)
    ensures LabelAt(Dir(Hashed(spell, Exchanged(input.root, p, o), None)), q)
            == LabelAt(Dir(Hashed(spell, input.root, None)), Exchange(p, o, q))
  {
    ExchangedLabels(input.root, p, o, q);
    HashedLabels(spell, Exchanged(input.root, p, o), q);
    HashedLabels(spell, input.root, Exchange(p, o, q));
    SeenUnchanged(spell, input.root, p);
    SeenUnchanged(spell, input.root, o);
  }

  lemma ExchangeBack(spell: string -> string, p: seq<string>, o: seq<string>, q: seq<string>)
    requires p != [] && o != [] && !(p <= o) && !(o <= p) && Rel(spell, o) == Rel(spell, p)
    ensures Exchange(p, o, Exchange(p, o, q)) == q && Rel(spell, Exchange(p, o, q)) == Rel(spell, q)
    ensures q != [] ==> Exchange(p, o, q) != []
  {
    if p <= q {
      assert q == p + q[|p|..] && (o + q[|p|..])[|o|..] == q[|p|..];
      RelSame(spell, p, o, q[|p|..]);
      if p <= o + q[|p|..] { Comparable(p, o, o + q[|p|..]); }
    } else if o <= q {
      assert q == o + q[|o|..] && (p + q[|o|..])[|p|..] == q[|o|..];
      RelSame(spell, o, p, q[|o|..]);
    }
  }

  function Exchanger(p: seq<string>, o: seq<string>): Route { (q: seq<string>) => Exchange(p, o, q) }

  lemma ExchangeRearranges(spell: string -> string, was: map<string, Node>, now: map<string, Node>, p: seq<string>,
                           o: seq<string>)
    requires p != [] && o != [] && !(p <= o) && !(o <= p) && Rel(spell, o) == Rel(spell, p)
    requires forall q :: q != [] ==> LabelAt(Dir(now), q) == LabelAt(Dir(was), Exchange(p, o, q))
    ensures Rearranges(spell, was, now, Exchanger(p, o), Exchanger(p, o))
  {
    forall q | q != [] && At(Dir(was), q).Some?
      ensures Carries(spell, was, q, now, Exchange(p, o, q)) && Exchange(p, o, Exchange(p, o, q)) == q {
      ExchangeBack(spell, p, o, q);
    }
    forall q | q != [] && At(Dir(now), q).Some?
      ensures Carries(spell, now, q, was, Exchange(p, o, q)) && Exchange(p, o, Exchange(p, o, q)) == q {
      ExchangeBack(spell, p, o, q);
    }
  }

  lemma ExchangedIsLegal(legal: string -> bool, was: map<string, Node>, now: map<string, Node>, p: seq<string>,
                         o: seq<string>)
    requires LegalNames(legal, was) && p != [] && o != [] && At(Dir(was), p).Some? && At(Dir(was), o).Some?
    requires forall q :: q != [] ==> LabelAt(Dir(now), q) == LabelAt(Dir(was), Exchange(p, o, q))
    ensures LegalNames(legal, now)
  {
    forall q | q != [] && At(Dir(now), q).Some? ensures legal(q[|q| - 1]) {
      assert LabelAt(Dir(now), q) == LabelAt(Dir(was), Exchange(p, o, q));
      LegalThere(legal, was, p, o, q);
    }
  }

  lemma LegalThere(legal: string -> bool, was: map<string, Node>, p: seq<string>, o: seq<string>, q: seq<string>)
    requires LegalNames(legal, was) && p != [] && o != [] && At(Dir(was), p).Some? && At(Dir(was), o).Some?
    requires q != [] && At(Dir(was), Exchange(p, o, q)).Some?
    ensures legal(q[|q| - 1])
  {
    if p <= q {
      if |p| < |q| { LastKept(o, q, |p|); } else { assert q == p; }
    } else if o <= q {
      if |o| < |q| { LastKept(p, q, |o|); } else { assert q == o; }
    }
  }

  lemma LastKept(a: seq<string>, q: seq<string>, k: nat)
    requires k < |q|
    ensures a + q[k..] != [] && (a + q[k..])[|a + q[k..]| - 1] == q[|q| - 1]
  {
  }

  lemma ExchangedManifest(input: Input, p: seq<string>, o: seq<string>)
    requires input.lines.Some? && ManifestOk(input.root, input.lines.value)
    requires !Pinned(input.lines, p) && !Pinned(input.lines, o) && !(p <= o) && !(o <= p)
    requires CanPut(Dir(input.root), p) && At(Dir(input.root), p).Some? && At(Dir(input.root), o).Some?
    requires CanPut(Put(Dir(input.root), p, At(Dir(input.root), o).value), o)
    ensures ManifestOk(Exchanged(input.root, p, o), input.lines.value)
  {
    forall q | q != [] && At(Dir(input.root), q).Some? && !(p <= q) && !(o <= q)
      ensures LabelAt(Dir(Exchanged(input.root, p, o)), q) == LabelAt(Dir(input.root), q) {
      ExchangedLabels(input.root, p, o, q);
    }
    ManifestSurvives(input, Exchanged(input.root, p, o), p, o);
  }

  lemma SwappableCollides(input: Input, host: Host, legal: string -> bool, p: seq<string>,
                          o: seq<string>) returns (other: Input)
    requires Readable(input, None, host) && NoClash(Collect(input, None, host).value)
    requires LegalNames(legal, Seen(input, None, host)) && Swaps(input, host.spell, p, o)
    ensures Collides(input, host, other, host, legal)
  {
    SeenUnchanged(host.spell, input.root, p);
    SeenUnchanged(host.spell, input.root, o);
    Apart(host.spell, p, o);
    ExchangePossible(input.root, p, o);
    other := Input(Exchanged(input.root, p, o), input.lines);
    forall q | q != []
      ensures LabelAt(Dir(Seen(other, None, host)), q) == LabelAt(Dir(Seen(input, None, host)), Exchange(p, o, q)) {
      ExchangedSeen(input, host.spell, p, o, q);
    }
    if input.lines.Some? { ExchangedManifest(input, p, o); }
    ExchangeRearranges(host.spell, Seen(input, None, host), Seen(other, None, host), p, o);
    SameStreamAfter(input, other, host, Exchanger(p, o), Exchanger(p, o));
    ExchangedIsLegal(legal, Seen(input, None, host), Seen(other, None, host), p, o);
    ExchangeDiffers(Seen(input, None, host), Seen(other, None, host), p, o);
  }

  lemma ExchangeDiffers(was: map<string, Node>, now: map<string, Node>, p: seq<string>, o: seq<string>)
    requires p != [] && At(Dir(was), p).Some? && At(Dir(was), o).Some? && TypeAt(was, p) != TypeAt(was, o)
    requires LabelAt(Dir(now), p) == LabelAt(Dir(was), Exchange(p, o, p))
    ensures was != now
  {
    assert Exchange(p, o, p) == o;
  }

  // ----- Only if: otherwise the tree is determined -----

  /** A pinned entry stands in every tree that the manifest fits, with the same type. */
  lemma PinnedStands(b: Input, hb: Host, p: seq<string>)
    requires Stream(b, None, hb).Some? && Pinned(b.lines, p) && p != [] && !Reserved(None, hb.spell(p[0]))
    ensures At(Dir(Seen(b, None, hb)), p).Some?
  {
    var i :| 0 <= i < |b.lines.value| && p <= Split(b.lines.value[i], '/');
    assert IsFile(b.root, b.lines.value[i]);
    AncestorStands(Dir(b.root), p, Split(b.lines.value[i], '/'));
    HashedLabels(hb.spell, b.root, p);
  }

  /** The type of a pinned entry: a directory on the way to a listed file, or a file typed by the manifest. */
  lemma PinnedType(b: Input, hb: Host, p: seq<string>, i: nat)
    requires Readable(b, None, hb) && b.lines.Some? && i < |b.lines.value| && p != []
             && p <= Split(b.lines.value[i], '/')
    requires At(Dir(Seen(b, None, hb)), p).Some?
    ensures TypeAt(Seen(b, None, hb), p)
            == if p != Split(b.lines.value[i], '/') then DIRECTORY
               else ModeKind(Rel(hb.spell, p) in (set l | l in b.lines.value))
  {
    var v := ViewOf(Retained(None, b.lines), None, hb);
    assert IsFile(b.root, b.lines.value[i]);
    AncestorStands(Dir(b.root), p, Split(b.lines.value[i], '/'));
    SeenUnchanged(hb.spell, b.root, p);
    WalkSucceedsIff(v, b.root);
    assert Acceptable(v, p, At(Dir(Seen(b, None, hb)), p).value);
  }

  /** Two trees with the same entries and the same manifest. */
  ghost predicate Paired(a: Input, ha: Host, b: Input, hb: Host, legal: string -> bool) {
    && Readable(a, None, ha) && Readable(b, None, hb) && ha.spell == hb.spell && a.lines == b.lines
    && multiset(ShownAll(ha.spell, Records(a, None, ha).value))
      == multiset(ShownAll(hb.spell, Records(b, None, hb).value))
    && NoClash(Collect(a, None, ha).value)
    && LegalNames(legal, Seen(b, None, hb))
  }

  /** The setting of the converse: nothing in the first tree can move or be exchanged. */
  ghost predicate Rigid(a: Input, ha: Host, b: Input, hb: Host, legal: string -> bool) {
    Paired(a, ha, b, hb, legal) && !Movable(a, ha.spell, legal) && !Swappable(a, ha.spell)
  }

  /** The trees agree on all records with a spelling shorter than `k`. */
  ghost predicate Agree(a: Input, ha: Host, b: Input, hb: Host, k: nat) {
    forall r: Record :: |Rel(ha.spell, r.path)| < k ==>
      (Collected(Seen(a, None, ha), r) <==> Collected(Seen(b, None, hb), r))
  }

  /** The places of a tree whose entries are selected. */
  ghost function Places(a: Input, ha: Host, select: Framed -> bool): set<seq<string>>
    requires Records(a, None, ha).Some?
  {
    PlacesOf(ha.spell, Records(a, None, ha).value, select)
  }

  lemma PlaceIff(a: Input, ha: Host, select: Framed -> bool, p: seq<string>)
    requires Readable(a, None, ha)
    ensures p in Places(a, ha, select)
            <==> p != [] && At(Dir(Seen(a, None, ha)), p).Some?
                 && select(Shown(ha.spell, RecordOf(p, At(Dir(Seen(a, None, ha)), p).value)))
  {
    RecordsAre(a, ha);
    PlaceOfRecords(ha.spell, Seen(a, None, ha), Records(a, None, ha).value, select, p);
  }

  lemma PlaceOfRecords(spell: string -> string, seen: map<string, Node>, s: seq<Record>, select: Framed -> bool,
                       p: seq<string>)
    requires forall r :: r in s <==> Collected(seen, r)
    ensures p in PlacesOf(spell, s, select)
            <==> p != [] && At(Dir(seen), p).Some? && select(Shown(spell, RecordOf(p, At(Dir(seen), p).value)))
  {
    if p in PlacesOf(spell, s, select) {
      var i :| 0 <= i < |s| && s[i].path == p && select(Shown(spell, s[i]));
      assert s[i] in s;
    }
    if p != [] && At(Dir(seen), p).Some? && select(Shown(spell, RecordOf(p, At(Dir(seen), p).value))) {
      var r := RecordOf(p, At(Dir(seen), p).value);
      assert Collected(seen, r);
      assert r in s;
      var i :| 0 <= i < |s| && s[i] == r;
    }
  }

  lemma TextPlaceIff(a: Input, ha: Host, text: string, p: seq<string>)
    requires Readable(a, None, ha)
    ensures p in Places(a, ha, OfText(text))
            <==> p != [] && At(Dir(Seen(a, None, ha)), p).Some? && Rel(ha.spell, p) == text
  {
    PlaceIff(a, ha, OfText(text), p);
  }

  lemma KindPlaceIff(a: Input, ha: Host, text: string, kind: Byte, p: seq<string>)
    requires Readable(a, None, ha)
    ensures p in Places(a, ha, OfKind(text, kind))
            <==> p != [] && At(Dir(Seen(a, None, ha)), p).Some? && Rel(ha.spell, p) == text
                 && TypeAt(Seen(a, None, ha), p) == kind
  {
    PlaceIff(a, ha, OfKind(text, kind), p);
  }

  /** Paired trees have equally many entries of every kind, and so places that go missing in pairs. */
  lemma MissingPlace(a: Input, ha: Host, b: Input, hb: Host, legal: string -> bool, select: Framed -> bool)
    requires Paired(a, ha, b, hb, legal)
    ensures Places(a, ha, select) == Places(b, hb, select)
            || ((exists p :: p in Places(a, ha, select) && p !in Places(b, hb, select))
                && exists p :: p in Places(b, hb, select) && p !in Places(a, ha, select))
  {
    RecordsAre(a, ha);
    RecordsAre(b, hb);
    PlacesCount(ha.spell, Records(a, None, ha).value, select);
    PlacesCount(hb.spell, Records(b, None, hb).value, select);
    CountMultiset(ShownAll(ha.spell, Records(a, None, ha).value), ShownAll(hb.spell, Records(b, None, hb).value),
        select);
    SameSize(Places(a, ha, select), Places(b, hb, select));
    SameSize(Places(b, hb, select), Places(a, ha, select));
  }

  lemma ParentCarries(a: Input, ha: Host, b: Input, hb: Host, t: seq<string>)
    requires Agree(a, ha, b, hb, |Rel(ha.spell, t)|) && t != [] && At(Dir(Seen(b, None, hb)), t).Some?
    requires Readable(a, None, ha)
    ensures CanPut(Dir(Seen(a, None, ha)), t)
  {
    var d, n := LastStep(t);
    CanPutIff(Dir(Seen(a, None, ha)), d, n);
    StandsInDirectory(Dir(Seen(b, None, hb)), t);
    CanPutIff(Dir(Seen(b, None, hb)), d, n);
    if d != [] {
      RelGrows(ha.spell, d, n);
      var r := RecordOf(d, At(Dir(Seen(b, None, hb)), d).value);
      assert Collected(Seen(b, None, hb), r);
      assert Collected(Seen(a, None, ha), r);
      WalkIsPlain(ViewOf(Retained(None, a.lines), None, ha), a.root);
    }
  }

  function OfText(text: string): Framed -> bool { (f: Framed) => f.path == text }

  function OfKind(text: string, kind: Byte): Framed -> bool { (f: Framed) => f.path == text && f.kind == kind }

  /** An entry that is missing in the second tree is not pinned. */
  lemma MissingIsLoose(a: Input, ha: Host, b: Input, hb: Host, legal: string -> bool, p: seq<string>)
    requires Paired(a, ha, b, hb, legal) && p != []
    requires At(Dir(Seen(a, None, ha)), p).Some? && At(Dir(Seen(b, None, hb)), p).None?
    ensures Loose(a, ha.spell, p)
  {
    SeenUnchanged(ha.spell, a.root, p);
    if Pinned(a.lines, p) { PinnedStands(b, hb, p); }
  }

  /** As far as the trees agree, the next spelling stands in the same places. */
  lemma SamePlaces(a: Input, ha: Host, b: Input, hb: Host, legal: string -> bool, text: string)
    requires Paired(a, ha, b, hb, legal) && !Movable(a, ha.spell, legal) && Agree(a, ha, b, hb, |text|)
    ensures Places(a, ha, OfText(text)) == Places(b, hb, OfText(text))
  {
    MissingPlace(a, ha, b, hb, legal, OfText(text));
    if Places(a, ha, OfText(text)) != Places(b, hb, OfText(text)) {
      var p :| p in Places(a, ha, OfText(text)) && p !in Places(b, hb, OfText(text));
      var t :| t in Places(b, hb, OfText(text)) && t !in Places(a, ha, OfText(text));
      MissingMoves(a, ha, b, hb, legal, text, p, t);
    }
  }

  lemma MissingMoves(a: Input, ha: Host, b: Input, hb: Host, legal: string -> bool, text: string, p: seq<string>,
                     t: seq<string>)
    requires Paired(a, ha, b, hb, legal) && Agree(a, ha, b, hb, |text|)
    requires p in Places(a, ha, OfText(text)) && p !in Places(b, hb, OfText(text))
    requires t in Places(b, hb, OfText(text)) && t !in Places(a, ha, OfText(text))
    ensures Moves(a, ha.spell, legal, p, t)
  {
    TextPlaceIff(a, ha, text, p);
    TextPlaceIff(b, hb, text, p);
    TextPlaceIff(a, ha, text, t);
    TextPlaceIff(b, hb, text, t);
    MissingIsLoose(a, ha, b, hb, legal, p);
    ParentCarries(a, ha, b, hb, t);
    LegalLast(legal, Seen(b, None, hb), t);
  }

  lemma LegalLast(legal: string -> bool, seen: map<string, Node>, t: seq<string>)
    requires LegalNames(legal, seen) && t != [] && At(Dir(seen), t).Some?
    ensures legal(t[|t| - 1])
  {
  }

  /** An entry whose type differs between the trees is not pinned. */
  lemma RetypedIsLoose(a: Input, ha: Host, b: Input, hb: Host, legal: string -> bool, p: seq<string>)
    requires Paired(a, ha, b, hb, legal) && p != []
    requires At(Dir(Seen(a, None, ha)), p).Some? && At(Dir(Seen(b, None, hb)), p).Some?
    requires TypeAt(Seen(a, None, ha), p) != TypeAt(Seen(b, None, hb), p)
    ensures Loose(a, ha.spell, p)
  {
    if Pinned(a.lines, p) {
      var i :| 0 <= i < |a.lines.value| && p <= Split(a.lines.value[i], '/');
      PinnedType(a, ha, p, i);
      PinnedType(b, hb, p, i);
    }
  }

  lemma SameTypes(a: Input, ha: Host, b: Input, hb: Host, legal: string -> bool, p: seq<string>)
    requires Rigid(a, ha, b, hb, legal) && Agree(a, ha, b, hb, |Rel(ha.spell, p)|) && p != []
    requires At(Dir(Seen(a, None, ha)), p).Some? && At(Dir(Seen(b, None, hb)), p).Some?
    ensures TypeAt(Seen(a, None, ha), p) == TypeAt(Seen(b, None, hb), p)
  {
    var text, kind := Rel(ha.spell, p), TypeAt(Seen(a, None, ha), p);
    if kind != TypeAt(Seen(b, None, hb), p) {
      SamePlaces(a, ha, b, hb, legal, text);
      KindPlaceIff(a, ha, text, kind, p);
      KindPlaceIff(b, hb, text, kind, p);
      MissingPlace(a, ha, b, hb, legal, OfKind(text, kind));
      var o :| o in Places(b, hb, OfKind(text, kind)) && o !in Places(a, ha, OfKind(text, kind));
      RetypedSwaps(a, ha, b, hb, legal, p, o);
    }
  }

  lemma RetypedSwaps(a: Input, ha: Host, b: Input, hb: Host, legal: string -> bool, p: seq<string>, o: seq<string>)
    requires Paired(a, ha, b, hb, legal) && p != []
    requires At(Dir(Seen(a, None, ha)), p).Some? && At(Dir(Seen(b, None, hb)), p).Some?
    requires TypeAt(Seen(a, None, ha), p) != TypeAt(Seen(b, None, hb), p)
    requires Places(a, ha, OfText(Rel(ha.spell, p))) == Places(b, hb, OfText(Rel(ha.spell, p)))
    requires o in Places(b, hb, OfKind(Rel(ha.spell, p), TypeAt(Seen(a, None, ha), p)))
    requires o !in Places(a, ha, OfKind(Rel(ha.spell, p), TypeAt(Seen(a, None, ha), p)))
    ensures Swaps(a, ha.spell, p, o)
  {
    var text, kind := Rel(ha.spell, p), TypeAt(Seen(a, None, ha), p);
    KindPlaceIff(b, hb, text, kind, o);
    KindPlaceIff(a, ha, text, kind, o);
    TextPlaceIff(b, hb, text, o);
    TextPlaceIff(a, ha, text, o);
    RetypedIsLoose(a, ha, b, hb, legal, p);
    RetypedIsLoose(a, ha, b, hb, legal, o);
  }

  /** Entries of one spelling and type have one content, in both trees. */
  lemma SameContents(a: Input, ha: Host, b: Input, hb: Host, legal: string -> bool, r: Record, t: Record)
    requires Paired(a, ha, b, hb, legal)
    requires Collected(Seen(a, None, ha), r) && Collected(Seen(b, None, hb), t) && r.path == t.path && r.kind == t.kind
    ensures r == t
  {
    RecordIsEntry(a, None, ha, r);
    RecordIsEntry(b, None, hb, t);
    SameMembers(ShownAll(ha.spell, Records(a, None, ha).value), ShownAll(hb.spell, Records(b, None, hb).value));
    ShownIsMember(hb.spell, Records(b, None, hb).value, t);
    var all := Collect(a, None, ha).value;
    var i :| 0 <= i < |all| && all[i] == Shown(ha.spell, r);
    assert Shown(ha.spell, t) in all;
    var j :| 0 <= j < |all| && all[j] == Shown(ha.spell, t);
  }

  lemma ShownIsMember(spell: string -> string, s: seq<Record>, r: Record)
    requires r in s
    ensures Shown(spell, r) in ShownAll(spell, s)
  {
    var i :| 0 <= i < |s| && s[i] == r;
    assert ShownAll(spell, s)[i] == Shown(spell, r);
  }

  lemma StandsToo(a: Input, ha: Host, b: Input, hb: Host, legal: string -> bool, p: seq<string>)
    requires Rigid(a, ha, b, hb, legal) && Agree(a, ha, b, hb, |Rel(ha.spell, p)|) && p != []
    ensures At(Dir(Seen(a, None, ha)), p).Some? <==> At(Dir(Seen(b, None, hb)), p).Some?
  {
    var text := Rel(ha.spell, p);
    SamePlaces(a, ha, b, hb, legal, text);
    TextPlaceIff(a, ha, text, p);
    TextPlaceIff(b, hb, text, p);
  }

  /** Both trees have the same record at a place where both have one. */
  lemma SameRecord(a: Input, ha: Host, b: Input, hb: Host, legal: string -> bool, p: seq<string>)
    requires Rigid(a, ha, b, hb, legal) && Agree(a, ha, b, hb, |Rel(ha.spell, p)|) && p != []
    requires At(Dir(Seen(a, None, ha)), p).Some? && At(Dir(Seen(b, None, hb)), p).Some?
    ensures RecordOf(p, At(Dir(Seen(a, None, ha)), p).value) == RecordOf(p, At(Dir(Seen(b, None, hb)), p).value)
  {
    SameTypes(a, ha, b, hb, legal, p);
    SameContents(a, ha, b, hb, legal, RecordOf(p, At(Dir(Seen(a, None, ha)), p).value),
                 RecordOf(p, At(Dir(Seen(b, None, hb)), p).value));
  }

  lemma RigidNext(a: Input, ha: Host, b: Input, hb: Host, legal: string -> bool, r: Record)
    requires Rigid(a, ha, b, hb, legal) && Agree(a, ha, b, hb, |Rel(ha.spell, r.path)|)
    ensures Collected(Seen(a, None, ha), r) <==> Collected(Seen(b, None, hb), r)
  {
    if r.path != [] {
      StandsToo(a, ha, b, hb, legal, r.path);
      if At(Dir(Seen(a, None, ha)), r.path).Some? { SameRecord(a, ha, b, hb, legal, r.path); }
    }
  }

  lemma {:induction false} RigidAgrees(a: Input, ha: Host, b: Input, hb: Host, legal: string -> bool, k: nat)
    requires Rigid(a, ha, b, hb, legal)
    ensures Agree(a, ha, b, hb, k)
  {
    if k > 0 {
      RigidAgrees(a, ha, b, hb, legal, k - 1);
      forall r: Record | |Rel(ha.spell, r.path)| < k
        ensures Collected(Seen(a, None, ha), r) <==> Collected(Seen(b, None, hb), r) {
        if |Rel(ha.spell, r.path)| == k - 1 { RigidNext(a, ha, b, hb, legal, r); }
      }
    }
  }

  lemma RigidIsAlone(a: Input, ha: Host, b: Input, hb: Host, legal: string -> bool)
    requires Rigid(a, ha, b, hb, legal)
    ensures Seen(a, None, ha) == Seen(b, None, hb)
  {
    forall r ensures Collected(Seen(a, None, ha), r) <==> Collected(Seen(b, None, hb), r) {
      RigidAgrees(a, ha, b, hb, legal, |Rel(ha.spell, r.path)| + 1);
    }
    WalkIsPlain(ViewOf(Retained(None, a.lines), None, ha), a.root);
    WalkIsPlain(ViewOf(Retained(None, b.lines), None, hb), b.root);
    RecordsDetermine(Seen(a, None, ha), Seen(b, None, hb));
  }

  lemma CancelManifest(x: seq<Framed>, y: seq<Framed>, m: seq<Framed>)
    requires multiset(x + m) == multiset(y + m)
    ensures multiset(x) == multiset(y)
  {
    assert multiset(x) == multiset(x + m) - multiset(m);
    assert multiset(y) == multiset(y + m) - multiset(m);
  }

  lemma CollisionPairs(a: Input, ha: Host, b: Input, hb: Host, legal: string -> bool)
    requires Readable(a, None, ha) && NoClash(Collect(a, None, ha).value) && Collides(a, ha, b, hb, legal)
    ensures Paired(a, ha, b, hb, legal)
  {
    StreamDeterminesEntries(a, b, None, ha, hb);
    SameMembers(Collect(a, None, ha).value, Collect(b, None, hb).value);
    ManifestDetermined(a, b, None, ha, hb);
    CancelManifest(ShownAll(ha.spell, Records(a, None, ha).value), ShownAll(hb.spell, Records(b, None, hb).value),
                   ManifestEntries(Retained(None, a.lines)));
  }

  // ----- The exact condition -----

  ghost predicate HasCollision(input: Input, host: Host, legal: string -> bool) {
    exists other: Input, list: Listing :: Collides(input, host, other, Host(list, host.spell), legal)
  }

  /**
   Exact: a readable tree whose digest does not depend on listing order has another tree
   with the same stream if and only if some entry that the manifest does not pin can
   stand in a free place under the same spelling, or two such entries of one spelling and
   different types can be exchanged.
   */
  lemma CollidesIff(input: Input, host: Host, legal: string -> bool)
    requires Readable(input, None, host) && LegalNames(legal, Seen(input, None, host))
    requires NoClash(Collect(input, None, host).value)
    ensures HasCollision(input, host, legal) <==> Movable(input, host.spell, legal) || Swappable(input, host.spell)
  {
    assert host == Host(host.list, host.spell);
    if Movable(input, host.spell, legal) {
      var p, t :| Moves(input, host.spell, legal, p, t);
      var other := MovableCollides(input, host, legal, p, t);
      assert Collides(input, host, other, Host(host.list, host.spell), legal);
    }
    if Swappable(input, host.spell) {
      var p, o :| Swaps(input, host.spell, p, o);
      var other := SwappableCollides(input, host, legal, p, o);
      assert Collides(input, host, other, Host(host.list, host.spell), legal);
    }
    if HasCollision(input, host, legal) && !Movable(input, host.spell, legal) && !Swappable(input, host.spell) {
      var other: Input, list: Listing :| Collides(input, host, other, Host(list, host.spell), legal);
      CollisionPairs(input, host, other, Host(list, host.spell), legal);
      RigidIsAlone(input, host, other, Host(list, host.spell), legal);
    }
  }

  // ----- Unix names -----

  /** A file name on Unix. */
  const UNIX_NAME: string -> bool := (n: string) => n != "" && '/' !in n

  lemma {:induction false} NoBackslash(p: seq<string>)
    ensures '\\' !in Rel(UNIX, p)
  {
    if |p| > 1 { NoBackslash(p[..|p| - 1]); }
  }

  function Unslashed(s: string): (r: string)
    ensures |r| == |s| && forall i :: 0 <= i < |s| ==> r[i] == if s[i] == '/' then '\\' else s[i]
  {
    seq(|s|, i requires 0 <= i < |s| => if s[i] == '/' then '\\' else s[i])
  }

  lemma SlashedUnslashed(s: string)
    requires '\\' !in s
    ensures Slashed(Unslashed(s)) == s && '/' !in Unslashed(s)
  {
  }

  /** Names without a backslash leave no two places with one spelling. */
  lemma GoodIsDistinct(seen: map<string, Node>, p: seq<string>, q: seq<string>)
    requires GoodNames(UNIX, seen) && p != [] && q != [] && At(Dir(seen), p).Some? && At(Dir(seen), q).Some?
    requires Rel(UNIX, p) == Rel(UNIX, q)
    ensures p == q
  {
    RelInjective(UNIX, p, UNIX, q);
  }

  lemma GoodHasNoClash(input: Input, list: Listing)
    requires Readable(input, None, Host(list, UNIX)) && GoodNames(UNIX, Seen(input, None, Host(list, UNIX)))
    ensures NoClash(Collect(input, None, Host(list, UNIX)).value)
  {
    var host := Host(list, UNIX);
    if !NoClash(Collect(input, None, host).value) {
      var x, y := ClashIsOfRecords(input, None, host);
      RecordsAre(input, host);
      GoodIsDistinct(Seen(input, None, host), x.path, y.path);
    }
  }

  /** Some entry below a root directory is not pinned by the manifest. */
  ghost predicate HasLooseEntry(input: Input) {
    exists q :: |q| >= 2 && Loose(input, UNIX, q)
  }

  /** A nested path has a legal name of the same spelling. */
  lemma LooseName(q: seq<string>)
    requires |q| >= 2
    ensures UNIX_NAME(Unslashed(Rel(UNIX, q))) && UNIX(Unslashed(Rel(UNIX, q))) == Rel(UNIX, q)
  {
    NoBackslash(q);
    var d, n := LastStep(q);
    RelGrows(UNIX, d, n);
    UnslashedName(Rel(UNIX, q));
  }

  lemma UnslashedName(text: string)
    requires '\\' !in text && text != ""
    ensures UNIX_NAME(Unslashed(text)) && UNIX(Unslashed(text)) == text
  {
    SlashedUnslashed(text);
  }

  lemma LooseMoves(input: Input, q: seq<string>)
    requires |q| >= 2 && Loose(input, UNIX, q) && GoodNames(UNIX, Hashed(UNIX, input.root, None))
    ensures Moves(input, UNIX, UNIX_NAME, q, [Unslashed(Rel(UNIX, q))])
  {
    var n := Unslashed(Rel(UNIX, q));
    LooseName(q);
    if At(Dir(Hashed(UNIX, input.root, None)), [n]).Some? {
      GoodIsDistinct(Hashed(UNIX, input.root, None), [n], q);
    }
  }

  lemma OneName(t: seq<string>, p: seq<string>)
    requires |t| == |p| == 1
    ensures t == p <==> t[0] == p[0]
  {
  }

  lemma RootEntryStays(input: Input, p: seq<string>, t: seq<string>)
    requires GoodNames(UNIX, Hashed(UNIX, input.root, None)) && Moves(input, UNIX, UNIX_NAME, p, t)
    ensures |p| >= 2
  {
    if |p| == 1 {
      assert GoodName(UNIX, p[0]);
      if |t| == 1 {
        SlashFree(t[0]);
        OneName(t, p);
      } else {
        var d, n := LastStep(t);
        RelGrows(UNIX, d, n);
      }
    }
  }

  /**
   On Unix, a readable tree without a backslash in a name has another tree with the same
   stream if and only if some entry below a root directory is not pinned by the manifest:
   that entry can stand in the root, its separators written as backslashes.
   */
  lemma UnixCollidesIff(input: Input, list: Listing)
    requires Readable(input, None, Host(list, UNIX)) && GoodNames(UNIX, Seen(input, None, Host(list, UNIX)))
    requires LegalNames(UNIX_NAME, Seen(input, None, Host(list, UNIX)))
    ensures HasCollision(input, Host(list, UNIX), UNIX_NAME) <==> HasLooseEntry(input)
  {
    GoodHasNoClash(input, list);
    CollidesIff(input, Host(list, UNIX), UNIX_NAME);
    if HasLooseEntry(input) {
      var q :| |q| >= 2 && Loose(input, UNIX, q);
      LooseMoves(input, q);
    }
    if Movable(input, UNIX, UNIX_NAME) {
      var p, t :| Moves(input, UNIX, UNIX_NAME, p, t);
      RootEntryStays(input, p, t);
    }
    if Swappable(input, UNIX) {
      var p, o :| Swaps(input, UNIX, p, o);
      GoodIsDistinct(Hashed(UNIX, input.root, None), p, o);
    }
  }
}
