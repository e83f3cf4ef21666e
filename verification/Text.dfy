/** Splitting and joining text at one separator. */
module Text {
  import opened Wrappers

  /** Position of the first `c`, or the length when there is none. */
  function Find(s: string, c: char): (i: nat)
    ensures i <= |s|
    ensures i < |s| ==> s[i] == c
    ensures c !in s[..i]
    ensures i == |s| <==> c !in s
  {
    if s == [] then 0
    else if s[0] == c then 0
    else
      var i := Find(s[1..], c) + 1;
      assert s[..i] == [s[0]] + s[1..][..i - 1];
      i
  }

  lemma FindIsFirst(a: string, c: char, b: string)
    requires c !in a
    ensures Find(a + [c] + b, c) == |a|
  {
    var s := a + [c] + b;
    assert s[|a|] == c;
  }

  /** The pieces of `s` between occurrences of `c`; never empty. */
  function Split(s: string, c: char): (parts: seq<string>)
    ensures parts != []
    decreases |s|
  {
    var i := Find(s, c);
    if i == |s| then [s] else [s[..i]] + Split(s[i + 1..], c)
  }

  function Join(parts: seq<string>, c: char): string {
    if parts == [] then []
    else if |parts| == 1 then parts[0]
    else parts[0] + [c] + Join(parts[1..], c)
  }

  /** Splitting undoes joining when no piece contains the separator. */
  lemma {:induction false} SplitJoin(parts: seq<string>, c: char)
    requires parts != [] && forall i :: 0 <= i < |parts| ==> c !in parts[i]
    ensures Split(Join(parts, c), c) == parts
  {
    if |parts| > 1 {
      var rest := Join(parts[1..], c);
      var s := parts[0] + [c] + rest;
      FindIsFirst(parts[0], c, rest);
      assert s[..|parts[0]|] == parts[0] && s[|parts[0]| + 1..] == rest;
      SplitJoin(parts[1..], c);
    }
  }

  /** Joining undoes splitting, and no piece contains the separator. */
  lemma {:induction false} JoinSplit(s: string, c: char)
    ensures Join(Split(s, c), c) == s
    ensures forall i :: 0 <= i < |Split(s, c)| ==> c !in Split(s, c)[i]
    decreases |s|
  {
    var i := Find(s, c);
    if i < |s| {
      JoinSplit(s[i + 1..], c);
      assert s == s[..i] + [c] + s[i + 1..];
      var rest := Split(s[i + 1..], c);
      assert ([s[..i]] + rest)[1..] == rest;
    }
  }

  // ----- Splitting once -----

  /** Splits at the last `c`, as `rsplit_once` does. */
  function SplitLast(s: string, c: char): Option<(string, string)>
    decreases |s|
  {
    if s == [] then None
    else if s[|s| - 1] == c then Some((s[..|s| - 1], ""))
    else
      var outer := SplitLast(s[..|s| - 1], c);
      if outer.None? then None else Some((outer.value.0, outer.value.1 + [s[|s| - 1]]))
  }

  lemma {:induction false} SplitLastFinds(a: string, c: char, b: string)
    requires c !in b
    ensures SplitLast(a + [c] + b, c) == Some((a, b))
    decreases |b|
  {
    var s := a + [c] + b;
    if b == [] {
      assert s[..|s| - 1] == a && s[|s| - 1] == c;
    } else {
      var shorter := b[..|b| - 1];
      assert s[..|s| - 1] == a + [c] + shorter && s[|s| - 1] == b[|b| - 1];
      SplitLastFinds(a, c, shorter);
      assert shorter + [b[|b| - 1]] == b;
    }
  }

  lemma {:induction false} SplitLastJoins(s: string, c: char)
    ensures SplitLast(s, c).Some? ==>
              s == SplitLast(s, c).value.0 + [c] + SplitLast(s, c).value.1 && c !in SplitLast(s, c).value.1
    decreases |s|
  {
    if s != [] {
      assert s == s[..|s| - 1] + [s[|s| - 1]];
      SplitLastJoins(s[..|s| - 1], c);
    }
  }

  /** Splits at the first occurrence of `sep`, as `split_once` does. */
  function SplitOnce(s: string, sep: string): Option<(string, string)>
    decreases |s|
  {
    if sep <= s then Some(("", s[|sep|..]))
    else if s == [] then None
    else
      var rest := SplitOnce(s[1..], sep);
      if rest.None? then None else Some(([s[0]] + rest.value.0, rest.value.1))
  }

  /** A separator whose first character is absent from `a` is found right after `a`. */
  lemma {:induction false} SplitOnceFinds(a: string, sep: string, b: string)
    requires sep != [] && sep[0] !in a
    ensures SplitOnce(a + sep + b, sep) == Some((a, b))
  {
    var s := a + sep + b;
    if a == [] {
      assert s == sep + b;
      assert s[|sep|..] == b;
    } else {
      assert s[0] == a[0] != sep[0];
      assert s[1..] == a[1..] + sep + b;
      SplitOnceFinds(a[1..], sep, b);
      assert [a[0]] + a[1..] == a;
    }
  }

  function StripPrefix(s: string, prefix: string): Option<string> {
    if prefix <= s then Some(s[|prefix|..]) else None
  }

  lemma StripFinds(prefix: string, s: string)
    ensures StripPrefix(prefix + s, prefix) == Some(s)
  {
    assert prefix <= prefix + s && (prefix + s)[|prefix|..] == s;
  }

  /** Three fields behind a prefix, each pair parted by a separator it cannot contain. */
  lemma ThreeFields(prefix: string, a: string, s: string, b: string, t: string, c: string)
    requires s != [] && t != [] && s[0] !in a && t[0] !in b
    ensures var whole := prefix + a + s + b + t + c;
            var rest := b + t + c;
            && StripPrefix(whole, prefix) == Some(a + s + rest)
            && SplitOnce(a + s + rest, s) == Some((a, rest))
            && SplitOnce(rest, t) == Some((b, c))
  {
    var rest := b + t + c;
    assert prefix + a + s + b + t + c == prefix + (a + s + rest) by {
      var front := prefix + a + s;
      assert front + b + t + c == front + (b + t + c);
      assert front == prefix + (a + s);
      assert prefix + (a + s) + rest == prefix + (a + s + rest);
    }
    StripFinds(prefix, a + s + rest);
    SplitOnceFinds(a, s, rest);
    SplitOnceFinds(b, t, c);
  }

  /** A property of characters that every piece and the separator have, the joined text has. */
  lemma {:induction false} JoinAll(parts: seq<string>, c: char, ok: char -> bool)
    requires ok(c) && forall i, j :: 0 <= i < |parts| && 0 <= j < |parts[i]| ==> ok(parts[i][j])
    ensures forall i :: 0 <= i < |Join(parts, c)| ==> ok(Join(parts, c)[i])
  {
    if |parts| > 1 {
      forall i, j | 0 <= i < |parts[1..]| && 0 <= j < |parts[1..][i]| ensures ok(parts[1..][i][j]) {
        assert parts[1..][i] == parts[i + 1];
      }
      JoinAll(parts[1..], c, ok);
    }
  }

  /** Every backslash read as a path separator. */
  function Slashed(s: string): (r: string)
    ensures |r| == |s| && forall i :: 0 <= i < |s| ==> r[i] == if s[i] == '\\' then '/' else s[i]
  {
    seq(|s|, i requires 0 <= i < |s| => if s[i] == '\\' then '/' else s[i])
  }

  // ----- ASCII case -----

  function Lower(c: char): char { if 'A' <= c <= 'Z' then (c as int + 32) as char else c }

  /** `to_ascii_lowercase`. */
  function LowerText(s: string): (r: string)
    ensures |r| == |s| && forall i :: 0 <= i < |s| ==> r[i] == Lower(s[i])
  {
    seq(|s|, i requires 0 <= i < |s| => Lower(s[i]))
  }
}
