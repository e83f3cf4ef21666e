/**
 Trees whose entries stand in other places under the same spellings: the digest cannot
 tell them apart.
 */
module TreeRearrangement {
  import opened Wrappers
  import opened Ordering
  import opened Framing
  import opened TreeModel
  import opened TreeRecords
  import opened TreeStream
  import opened TreeTheorems

  type Route = seq<string> -> seq<string>

  /** What stands at `q` in one tree stands at `o` in the other, under the same spelling. */
  ghost predicate Carries(spell: string -> string, was: map<string, Node>, q: seq<string>, now: map<string, Node>,
                          o: seq<string>) {
    o != [] && LabelAt(Dir(now), o) == LabelAt(Dir(was), q) && Rel(spell, o) == Rel(spell, q)
  }

  /** Every entry of one tree stands somewhere in the other, each in a place of its own. */
  ghost predicate Rearranges(spell: string -> string, was: map<string, Node>, now: map<string, Node>, forth: Route,
                             back: Route) {
    && (forall q :: q != [] && At(Dir(was), q).Some? ==> Carries(spell, was, q, now, forth(q)) && back(forth(q)) == q)
    && (forall q :: q != [] && At(Dir(now), q).Some? ==> Carries(spell, now, q, was, back(q)) && forth(back(q)) == q)
  }

  lemma SoundAfter(v: View, was: map<string, Node>, now: map<string, Node>, forth: Route, back: Route)
    requires Rearranges(v.spell, was, now, forth, back) && SoundBelow(v, was)
    ensures SoundBelow(v, now)
  {
    forall q | q != [] && At(Dir(now), q).Some? ensures Acceptable(v, q, At(Dir(now), q).value) {
      assert Carries(v.spell, now, q, was, back(q));
      assert Acceptable(v, back(q), At(Dir(was), back(q)).value);
    }
  }

  // ----- Sequences without repetition -----

  ghost predicate NoRepeats<T(!new)>(s: seq<T>) { forall i, j :: 0 <= i < j < |s| ==> s[i] != s[j] }

  lemma CountOnce<T(!new)>(s: seq<T>, x: T)
    requires NoRepeats(s)
    ensures multiset(s)[x] == if x in s then 1 else 0
  {
    if s != [] {
      CountOnce(s[1..], x);
      assert s == [s[0]] + s[1..];
      assert multiset(s)[x] == multiset([s[0]])[x] + multiset(s[1..])[x];
      if x in s[1..] {
        var k :| 0 <= k < |s[1..]| && s[1..][k] == x;
        assert s[k + 1] == x;
      }
    } else {
      assert x !in multiset(s);
    }
  }

  lemma SameElementsOnce<T(!new)>(a: seq<T>, b: seq<T>)
    requires NoRepeats(a) && NoRepeats(b) && forall x :: x in a <==> x in b
    ensures multiset(a) == multiset(b)
  {
    forall x ensures multiset(a)[x] == multiset(b)[x] {
      CountOnce(a, x);
      CountOnce(b, x);
    }
  }

  // ----- Equal entries -----

  function Sent(r: Record, forth: Route): Record { Record(forth(r.path), r.kind, r.data) }

  function SentAll(s: seq<Record>, forth: Route): (t: seq<Record>)
    ensures |t| == |s| && forall i :: 0 <= i < |s| ==> t[i] == Sent(s[i], forth)
  {
    seq(|s|, i requires 0 <= i < |s| => Sent(s[i], forth))
  }

  lemma SentIsCollected(spell: string -> string, was: map<string, Node>, now: map<string, Node>, forth: Route,
                        back: Route, r: Record)
    requires Rearranges(spell, was, now, forth, back) && Collected(was, r)
    ensures Collected(now, Sent(r, forth)) && Shown(spell, Sent(r, forth)) == Shown(spell, r)
    ensures back(Sent(r, forth).path) == r.path
  {
    assert Carries(spell, was, r.path, now, forth(r.path));
  }

  /** A record of the rearranged tree was sent from where it came. */
  lemma CollectedWasSent(spell: string -> string, was: map<string, Node>, now: map<string, Node>, forth: Route,
                         back: Route, r: Record)
    requires Rearranges(spell, was, now, forth, back) && Collected(now, r)
    ensures Collected(was, Sent(r, back)) && Sent(Sent(r, back), forth) == r
  {
    assert Carries(spell, now, r.path, was, back(r.path));
  }

  /** The walks of both trees: every record of the first, sent, is one of the second, and the other way round. */
  lemma SentMultiset(spell: string -> string, was: map<string, Node>, now: map<string, Node>, forth: Route, back: Route,
                     a: seq<Record>, b: seq<Record>)
    requires Rearranges(spell, was, now, forth, back)
    requires DistinctRecords(a) && DistinctRecords(b)
    requires forall r :: r in a <==> Collected(was, r)
    requires forall r :: r in b <==> Collected(now, r)
    ensures multiset(SentAll(a, forth)) == multiset(b) && ShownAll(spell, SentAll(a, forth)) == ShownAll(spell, a)
  {
    var sent := SentAll(a, forth);
    forall i | 0 <= i < |a| ensures Collected(now, sent[i]) && Shown(spell, sent[i]) == Shown(spell, a[i])
                                    && back(sent[i].path) == a[i].path {
      assert a[i] in a;
      SentIsCollected(spell, was, now, forth, back, a[i]);
    }
    forall i, j | 0 <= i < j < |a| ensures sent[i] != sent[j] { assert a[i].path != a[j].path; }
    forall r ensures r in sent <==> r in b {
      if r in b {
        CollectedWasSent(spell, was, now, forth, back, r);
        var k :| 0 <= k < |a| && a[k] == Sent(r, back);
        assert sent[k] == r;
      }
    }
    SameElementsOnce(sent, b);
  }

  lemma RecordsAre(input: Input, host: Host)
    requires Complete(host.list) && Records(input, None, host).Some?
    ensures forall r :: r in Records(input, None, host).value <==> Collected(Seen(input, None, host), r)
    ensures DistinctRecords(Records(input, None, host).value)
  {
    var v := ViewOf(Retained(None, input.lines), None, host);
    forall r ensures r in Records(input, None, host).value <==> Collected(Seen(input, None, host), r) {
      WalkRecords(v, input.root, r);
    }
    WalkDistinct(v, input.root);
  }

  lemma StillAccepted(a: Input, b: Input, host: Host, forth: Route, back: Route)
    requires Complete(host.list) && Records(a, None, host).Some? && b.lines == a.lines
    requires Rearranges(host.spell, Seen(a, None, host), Seen(b, None, host), forth, back)
    ensures Records(b, None, host).Some?
  {
    var v := ViewOf(Retained(None, a.lines), None, host);
    WalkSucceedsIff(v, a.root);
    SoundAfter(v, Seen(a, None, host), Seen(b, None, host), forth, back);
    WalkSucceedsIff(v, b.root);
  }

  lemma SameEntriesAfter(a: Input, b: Input, host: Host, forth: Route, back: Route)
    requires Complete(host.list) && Collect(a, None, host).Some? && b.lines == a.lines
    requires Rearranges(host.spell, Seen(a, None, host), Seen(b, None, host), forth, back)
    ensures Collect(b, None, host).Some?
    ensures multiset(Collect(a, None, host).value) == multiset(Collect(b, None, host).value)
  {
    StillAccepted(a, b, host, forth, back);
    RecordsAre(a, host);
    RecordsAre(b, host);
    var r, s := Records(a, None, host).value, Records(b, None, host).value;
    SentMultiset(host.spell, Seen(a, None, host), Seen(b, None, host), forth, back, r, s);
    ShownMultiset(host.spell, SentAll(r, forth), s);
  }

  /** A rearranged tree is readable and has the same stream. */
  lemma SameStreamAfter(a: Input, b: Input, host: Host, forth: Route, back: Route)
    requires Readable(a, None, host) && NoClash(Collect(a, None, host).value)
    requires b.lines == a.lines && (b.lines.Some? ==> ManifestOk(b.root, b.lines.value))
    requires Rearranges(host.spell, Seen(a, None, host), Seen(b, None, host), forth, back)
    ensures Readable(b, None, host) && Stream(a, None, host) == Stream(b, None, host)
  {
    SameEntriesAfter(a, b, host, forth, back);
    SameMembers(Collect(a, None, host).value, Collect(b, None, host).value);
    StreamDeterminesEntries(a, b, None, host, host);
  }

  // ----- Counting entries -----

  function CountOf(s: seq<Framed>, select: Framed -> bool): nat {
    if s == [] then 0 else (if select(s[0]) then 1 else 0) + CountOf(s[1..], select)
  }

  lemma {:induction false} CountAround(x: seq<Framed>, f: Framed, y: seq<Framed>, select: Framed -> bool)
    ensures CountOf(x + [f] + y, select) == (if select(f) then 1 else 0) + CountOf(x + y, select)
    decreases |x|
  {
    if x == [] {
      assert x + [f] + y == [f] + y && x + y == y && ([f] + y)[1..] == y;
    } else {
      CountAround(x[1..], f, y, select);
      assert (x + [f] + y)[1..] == x[1..] + [f] + y && (x + y)[1..] == x[1..] + y;
    }
  }

  lemma {:induction false} CountMultiset(a: seq<Framed>, b: seq<Framed>, select: Framed -> bool)
    requires multiset(a) == multiset(b)
    ensures CountOf(a, select) == CountOf(b, select)
    decreases |a|
  {
    assert |multiset(a)| == |a| && |multiset(b)| == |b|;
    if a != [] {
      var x, y := SplitAround(a, b);
      CountMultiset(a[1..], x + y, select);
      CountAround(x, a[0], y, select);
    }
  }

  /** The places whose entries are selected. */
  ghost function PlacesOf(spell: string -> string, s: seq<Record>, select: Framed -> bool): (r: set<seq<string>>)
    ensures forall p :: p in r <==> exists i :: 0 <= i < |s| && s[i].path == p && select(Shown(spell, s[i]))
  {
    set i | 0 <= i < |s| && select(Shown(spell, s[i])) :: s[i].path
  }

  /** As many places as selected entries, because every record has a place of its own. */
  lemma {:induction false} PlacesCount(spell: string -> string, s: seq<Record>, select: Framed -> bool)
    requires DistinctRecords(s)
    ensures |PlacesOf(spell, s, select)| == CountOf(ShownAll(spell, s), select)
  {
    if s != [] {
      ShownFront(spell, s);
      RestIsDistinct(s);
      PlacesCount(spell, s[1..], select);
      assert ([Shown(spell, s[0])] + ShownAll(spell, s[1..]))[1..] == ShownAll(spell, s[1..]);
      FirstPlace(spell, s, select);
      assert s[0].path !in PlacesOf(spell, s[1..], select);
    }
  }

  lemma RestIsDistinct(s: seq<Record>)
    requires s != [] && DistinctRecords(s)
    ensures DistinctRecords(s[1..]) && forall i :: 0 <= i < |s[1..]| ==> s[1..][i].path != s[0].path
  {
    assert forall i :: 0 <= i < |s[1..]| ==> s[1..][i] == s[i + 1];
  }

  lemma FirstPlace(spell: string -> string, s: seq<Record>, select: Framed -> bool)
    requires s != []
    ensures PlacesOf(spell, s, select)
            == PlacesOf(spell, s[1..], select) + if select(Shown(spell, s[0])) then {s[0].path} else {}
  {
    forall p ensures p in PlacesOf(spell, s, select)
                     <==> p in PlacesOf(spell, s[1..], select)
                               + if select(Shown(spell, s[0])) then {s[0].path} else {} {
      if p in PlacesOf(spell, s, select) {
        var i :| 0 <= i < |s| && s[i].path == p && select(Shown(spell, s[i]));
        if i > 0 { assert s[1..][i - 1] == s[i]; }
      }
      if p in PlacesOf(spell, s[1..], select) {
        var i :| 0 <= i < |s[1..]| && s[1..][i].path == p && select(Shown(spell, s[1..][i]));
        assert s[i + 1] == s[1..][i];
      }
    }
  }

  lemma SameSize<T>(a: set<T>, b: set<T>)
    requires |a| == |b|
    ensures a == b || exists x :: x in a && x !in b
  {
    if a <= b {
      assert b == a + (b - a);
      assert |b| == |a| + |b - a|;
    }
  }
}
