/** The package name grammar of crates/tapid-core/src/lib.rs. */
module PackageNames {
  import opened Text

  predicate NameChar(c: char) {
    'a' <= c <= 'z' || 'A' <= c <= 'Z' || '0' <= c <= '9' || c == '-' || c == '_' || c == '.'
  }

  predicate NameChars(s: string) {
    forall i :: 0 <= i < |s| ==> NameChar(s[i])
  }

  predicate ValidName(s: string) {
    && 0 < |s| <= 214
    && s[0] != '.' && s[0] != '_'
    && s[|s| - 1] != '.' && s[|s| - 1] != '_'
    && if s[0] == '@' then
         var slash := Find(s, '/');
         2 <= slash < |s| - 1 && NameChars(s[1..slash]) && NameChars(s[slash + 1..])
       else NameChars(s)
  }

  ghost predicate NamePart(s: string) {
    s != "" && forall c :: c in s ==>
      'a' <= c <= 'z' || 'A' <= c <= 'Z' || '0' <= c <= '9' || c == '-' || c == '_' || c == '.'
  }

  lemma NamePartIff(s: string)
    ensures NamePart(s) <==> s != "" && NameChars(s)
  {
    forall i | 0 <= i < |s| ensures s[i] in s {}
  }

  ghost predicate ScopedAt(s: string, slash: nat)
    requires 0 < slash < |s|
  {
    s[0] == '@' && s[slash] == '/' && NamePart(s[1..slash]) && NamePart(s[slash + 1..])
  }

  /** One part, or `@` and two parts around a slash; no dot or underscore at either end. */
  lemma ValidNameIff(s: string)
    ensures ValidName(s)
            <==> && 1 <= |s| <= 214 && s[0] !in {'.', '_'} && s[|s| - 1] !in {'.', '_'}
                 && (NamePart(s) || exists i :: 0 < i < |s| && ScopedAt(s, i))
  {
    NamePartIff(s);
    if s != "" {
      assert s[0] in s;
      if s[0] == '@' { ScopedIff(s); }
    }
  }

  lemma ScopedIff(s: string)
    requires s != "" && s[0] == '@'
    ensures var slash := Find(s, '/');
            (2 <= slash < |s| - 1 && NameChars(s[1..slash]) && NameChars(s[slash + 1..]))
            <==> exists i :: 0 < i < |s| && ScopedAt(s, i)
  {
    var slash := Find(s, '/');
    if slash < |s| {
      NamePartIff(s[1..slash]);
      NamePartIff(s[slash + 1..]);
      assert ScopedAt(s, slash) <==> NamePart(s[1..slash]) && NamePart(s[slash + 1..]);
    }
    forall i | 0 < i < |s| && ScopedAt(s, i) ensures i == slash {
      FirstSlash(s, i);
    }
  }

  lemma FirstSlash(s: string, i: nat)
    requires 0 < i < |s| && s[0] == '@' && s[i] == '/' && NamePart(s[1..i])
    ensures Find(s, '/') == i
  {
    forall k | 0 <= k < i ensures s[k] != '/' {
      if k > 0 { assert s[k] == s[1..i][k - 1] && s[1..i][k - 1] in s[1..i]; }
    }
    assert s == s[..i] + ['/'] + s[i + 1..];
    FindIsFirst(s[..i], '/', s[i + 1..]);
  }
}
