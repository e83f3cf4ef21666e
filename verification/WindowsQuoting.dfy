/**
 `windows_cmd_escape_argument` of crates/tapid-cli/src/run.rs: a printer whose reader
 is cmd's caret removal followed by the rules of Microsoft's "Parsing C command-line
 arguments".
 */
module WindowsQuoting {
  import opened Wrappers

  // ----- The reader -----

  function Repeat(c: char, n: nat): (s: string)
    ensures |s| == n && forall i :: 0 <= i < n ==> s[i] == c
  {
    seq(n, _ => c)
  }

  /** Number of backslashes at the front. */
  function Slashes(s: string): (n: nat)
    ensures n <= |s|
    ensures forall i :: 0 <= i < n ==> s[i] == '\\'
    ensures n < |s| ==> s[n] != '\\'
  {
    if s != [] && s[0] == '\\' then 1 + Slashes(s[1..]) else 0
  }

  /**
   Reads the rest of a command line. `quoted` says whether a quoted part is open,
   `current` is the argument read so far and `open` whether there is one.
   */
  function ReadArguments(s: string, quoted: bool, current: string, open: bool): seq<string>
    decreases |s|
  {
    if s == [] then
      if open then [current] else []
    else if s[0] == '\\' then
      var n := Slashes(s);
      if n < |s| && s[n] == '"' then
        // Each pair of backslashes before a quote is one backslash; an odd one escapes the quote.
        if n % 2 == 1 then ReadArguments(s[n + 1..], quoted, current + Repeat('\\', n / 2) + "\"", true)
        else ReadArguments(s[n..], quoted, current + Repeat('\\', n / 2), true)
      else ReadArguments(s[n..], quoted, current + Repeat('\\', n), true)
    else if s[0] == '"' then
      // Two quotes inside a quoted part are one literal quote.
      if quoted && |s| > 1 && s[1] == '"' then ReadArguments(s[2..], quoted, current + "\"", true)
      else ReadArguments(s[1..], !quoted, current, true)
    else if !quoted && (s[0] == ' ' || s[0] == '\t') then
      (if open then [current] else []) + ReadArguments(s[1..], false, "", false)
    else ReadArguments(s[1..], quoted, current + [s[0]], true)
  }

  /** cmd's removal of one layer of carets. */
  function RemoveCarets(s: string): string {
    if s == [] then []
    else if s[0] != '^' then [s[0]] + RemoveCarets(s[1..])
    else if |s| == 1 then []
    else [s[1]] + RemoveCarets(s[2..])
  }

  // ----- The printer, as functions -----

  predicate Special(c: char) {
    c in " !%^&()<>|\""
  }

  predicate NeedsQuotes(s: string) {
    ' ' in s || '\t' in s || '\U{000B}' in s || '"' in s
  }

  /** The inside of the quoted form, with `n` backslashes read but not yet printed. */
  function QuotedBody(s: string, n: nat): string {
    if s == [] then Repeat('\\', n * 2)
    else if s[0] == '\\' then QuotedBody(s[1..], n + 1)
    else if s[0] == '"' then Repeat('\\', n * 2 + 1) + "\"" + QuotedBody(s[1..], 0)
    else Repeat('\\', n) + [s[0]] + QuotedBody(s[1..], 0)
  }

  function EscapeOnce(s: string): string {
    if s == [] then [] else (if Special(s[0]) then "^" else "") + [s[0]] + EscapeOnce(s[1..])
  }

  function Printed(s: string): string {
    if NeedsQuotes(s) then "\"" + QuotedBody(s, 0) + "\"" else s
  }

  function Escape(s: string, doubled: bool): Option<string> {
    if '\r' in s || '\n' in s then None
    else if s == [] then Some("\"\"")
    else if doubled then Some(EscapeOnce(EscapeOnce(Printed(s))))
    else Some(EscapeOnce(Printed(s)))
  }

  // ----- The printer, as the source runs it -----

  method AddCarets(value: string) returns (escaped: string)
    ensures escaped == EscapeOnce(value)
  {
    escaped := "";
    var i := 0;
    while i < |value|
      invariant 0 <= i <= |value|
      invariant EscapeOnce(value) == escaped + EscapeOnce(value[i..])
    {
      EscapeNext(escaped, value, i);
      if Special(value[i]) { escaped := escaped + "^"; }
      escaped := escaped + [value[i]];
      i := i + 1;
    }
  }

  /** The double loop that counts backslashes and doubles those in front of a quote. */
  method Quote(input: string) returns (quoted: string)
    ensures quoted == "\"" + QuotedBody(input, 0) + "\""
  {
    quoted := "\"";
    var index, done := 0, false;
    ghost var left := QuotedBody(input, 0);
    assert input[0..] == input;
    while !done
      invariant 0 <= index <= |input|
      invariant "\"" + QuotedBody(input, 0) == quoted + left
      invariant left == if done then "" else QuotedBody(input[index..], 0)
      decreases !done, |input| - index
    {
      var chunk, next;
      chunk, next, done := QuoteRun(input, index);
      left := if done then "" else QuotedBody(input[next..], 0);
      Regroup(quoted, chunk, left, "");
      quoted := quoted + chunk;
      if !done { index := next; }
    }
    quoted := quoted + "\"";
  }

  /** One run of backslashes with the character after it; nothing follows the last run. */
  method QuoteRun(input: string, start: nat) returns (chunk: string, index: nat, done: bool)
    requires start <= |input|
    ensures done ==> QuotedBody(input[start..], 0) == chunk == chunk + ""
    ensures !done ==> start < index <= |input| && QuotedBody(input[start..], 0) == chunk + QuotedBody(input[index..], 0)
  {
    var slashCount := 0;
    index := start;
    while index < |input| && input[index] == '\\'
      invariant start <= index <= |input|
      invariant QuotedBody(input[start..], 0) == QuotedBody(input[index..], slashCount)
    {
      assert input[index..][1..] == input[index + 1..];
      index := index + 1;
      slashCount := slashCount + 1;
    }
    if index == |input| { return Repeat('\\', slashCount * 2), index, true; }
    assert input[index..][0] == input[index] && input[index..][1..] == input[index + 1..];
    if input[index] == '"' {
      chunk := Repeat('\\', slashCount * 2 + 1) + "\"";
    } else {
      chunk := Repeat('\\', slashCount) + [input[index]];
    }
    return chunk, index + 1, false;
  }

  method EscapeArgument(input: string, doubled: bool) returns (r: Option<string>)
    ensures r == Escape(input, doubled)
  {
    if '\r' in input || '\n' in input { return None; }
    if input == [] { return Some("\"\""); }
    var result := input;
    if NeedsQuotes(input) { result := Quote(input); }
    result := AddCarets(result);
    if doubled { result := AddCarets(result); }
    return Some(result);
  }

  lemma EscapeNext(escaped: string, value: string, i: nat)
    requires i < |value|
    ensures Special(value[i]) ==>
              escaped + EscapeOnce(value[i..]) == (escaped + "^") + [value[i]] + EscapeOnce(value[i + 1..])
    ensures !Special(value[i]) ==> escaped + EscapeOnce(value[i..]) == escaped + [value[i]] + EscapeOnce(value[i + 1..])
  {
    var rest := EscapeOnce(value[i + 1..]);
    EscapeFront(value[i..]);
    assert value[i..][0] == value[i] && value[i..][1..] == value[i + 1..];
    Regroup(escaped, "^", [value[i]], rest);
    Regroup("^", [value[i]], rest, "");
    Regroup(escaped, [value[i]], rest, "");
  }

  lemma EscapeFront(s: string)
    requires s != []
    ensures EscapeOnce(s) == (if Special(s[0]) then "^" + [s[0]] else [s[0]]) + EscapeOnce(s[1..])
  {
  }

  // ----- Round trip -----

  lemma Regroup(a: string, b: string, c: string, d: string)
    ensures a + b + c + d == a + (b + (c + d))
    ensures a + b + c == a + (b + c)
  {
  }

  lemma {:induction false} CaretsRoundTrip(s: string)
    ensures RemoveCarets(EscapeOnce(s)) == s
  {
    if s != [] {
      CaretsRoundTrip(s[1..]);
      var e := EscapeOnce(s);
      if Special(s[0]) {
        assert e == ['^', s[0]] + EscapeOnce(s[1..]);
        assert e[2..] == EscapeOnce(s[1..]);
      } else {
        assert e == [s[0]] + EscapeOnce(s[1..]);
        assert e[1..] == EscapeOnce(s[1..]);
      }
    }
  }

  lemma SlashesOf(n: nat, rest: string)
    requires rest == [] || rest[0] != '\\'
    ensures Slashes(Repeat('\\', n) + rest) == n
  {
    var s := Repeat('\\', n) + rest;
    assert rest != [] ==> s[n] == rest[0];
  }

  /** Reading a run of backslashes that ends before something other than a quote. */
  lemma ReadPlainRun(n: nat, rest: string, quoted: bool, current: string)
    requires rest != [] && rest[0] != '\\' && rest[0] != '"'
    ensures ReadArguments(Repeat('\\', n) + rest, quoted, current, true)
            == ReadArguments(rest, quoted, current + Repeat('\\', n), true)
  {
    SlashesOf(n, rest);
    var s := Repeat('\\', n) + rest;
    assert s[n..] == rest;
    if n == 0 { assert s == rest && current + Repeat('\\', 0) == current; }
  }

  lemma ReadEvenRun(n: nat, rest: string, quoted: bool, current: string)
    requires rest != [] && rest[0] == '"'
    ensures ReadArguments(Repeat('\\', n * 2) + rest, quoted, current, true)
            == ReadArguments(rest, quoted, current + Repeat('\\', n), true)
  {
    SlashesOf(n * 2, rest);
    var s := Repeat('\\', n * 2) + rest;
    assert s[n * 2..] == rest;
    if n == 0 { assert s == rest && current + Repeat('\\', 0) == current; }
  }

  lemma ReadOddRun(n: nat, rest: string, quoted: bool, current: string)
    ensures ReadArguments(Repeat('\\', n * 2 + 1) + ("\"" + rest), quoted, current, true)
            == ReadArguments(rest, quoted, current + Repeat('\\', n) + "\"", true)
  {
    var tail := "\"" + rest;
    SlashesOf(n * 2 + 1, tail);
    var s := Repeat('\\', n * 2 + 1) + tail;
    assert s[n * 2 + 2..] == rest;
  }

  /** The quoted form, read inside quotes up to its closing quote, is the argument. */
  lemma {:induction false} BodyRoundTrip(s: string, n: nat, current: string)
    ensures ReadArguments(QuotedBody(s, n) + "\"", true, current, true) == [current + Repeat('\\', n) + s]
    decreases |s|
  {
    var pending := current + Repeat('\\', n);
    if s == [] {
      ReadEvenRun(n, "\"", true, current);
      assert "\""[1..] == "" && pending + s == pending;
    } else if s[0] == '\\' {
      BodyRoundTrip(s[1..], n + 1, current);
      assert Repeat('\\', n + 1) + s[1..] == Repeat('\\', n) + s;
      assert current + Repeat('\\', n + 1) + s[1..] == pending + s;
    } else {
      BodyRoundTrip(s[1..], 0, pending + [s[0]]);
      assert pending + [s[0]] + Repeat('\\', 0) + s[1..] == pending + s;
      if s[0] == '"' { QuoteInBody(s, n, current); } else { PlainInBody(s, n, current); }
    }
  }

  lemma QuoteInBody(s: string, n: nat, current: string)
    requires s != [] && s[0] == '"'
    ensures ReadArguments(QuotedBody(s, n) + "\"", true, current, true)
            == ReadArguments(QuotedBody(s[1..], 0) + "\"", true, current + Repeat('\\', n) + [s[0]], true)
  {
    var tail := QuotedBody(s[1..], 0) + "\"";
    ReadOddRun(n, tail, true, current);
    Regroup(Repeat('\\', n * 2 + 1), "\"", QuotedBody(s[1..], 0), "\"");
  }

  lemma PlainInBody(s: string, n: nat, current: string)
    requires s != [] && s[0] != '"' && s[0] != '\\'
    ensures ReadArguments(QuotedBody(s, n) + "\"", true, current, true)
            == ReadArguments(QuotedBody(s[1..], 0) + "\"", true, current + Repeat('\\', n) + [s[0]], true)
  {
    var tail := QuotedBody(s[1..], 0) + "\"";
    var more := [s[0]] + tail;
    ReadPlainRun(n, more, true, current);
    ReadPlainChar(s[0], tail, current + Repeat('\\', n));
    Regroup(Repeat('\\', n), [s[0]], QuotedBody(s[1..], 0), "\"");
  }

  lemma ReadPlainChar(c: char, tail: string, current: string)
    requires c != '"' && c != '\\'
    ensures ReadArguments([c] + tail, true, current, true) == ReadArguments(tail, true, current + [c], true)
  {
    assert ([c] + tail)[1..] == tail;
  }

  /** Text without blanks or quotes reads as itself. */
  lemma {:induction false} PlainRoundTrip(s: string, current: string)
    requires ' ' !in s && '\t' !in s && '"' !in s
    ensures ReadArguments(s, false, current, true) == [current + s]
    decreases |s|
  {
    if s == [] {
      assert current + s == current;
    } else if s[0] == '\\' {
      var n := Slashes(s);
      assert s == Repeat('\\', n) + s[n..];
      PlainRoundTrip(s[n..], current + Repeat('\\', n));
      assert current + Repeat('\\', n) + s[n..] == current + s;
    } else {
      PlainRoundTrip(s[1..], current + [s[0]]);
      assert current + [s[0]] + s[1..] == current + s;
    }
  }

  lemma PrintedRoundTrip(s: string)
    requires s != []
    ensures ReadArguments(Printed(s), false, "", false) == [s]
  {
    if NeedsQuotes(s) {
      BodyRoundTrip(s, 0, "");
      var p := Printed(s);
      assert p == "\"" + (QuotedBody(s, 0) + "\"");
      assert p[1..] == QuotedBody(s, 0) + "\"";
      assert "" + Repeat('\\', 0) + s == s;
    } else {
      FirstCharacterOpens(s);
      PlainRoundTrip(s, "");
      assert "" + s == s;
    }
  }

  lemma FirstCharacterOpens(s: string)
    requires s != [] && ' ' !in s && '\t' !in s && '"' !in s
    ensures ReadArguments(s, false, "", false) == ReadArguments(s, false, "", true)
  {
  }

  /** Carets removed as often as they were added. */
  function RemoveLayers(s: string, doubled: bool): string {
    if doubled then RemoveCarets(RemoveCarets(s)) else RemoveCarets(s)
  }

  /**
   Round trip: escaping fails exactly on a line break, and otherwise cmd and the C
   argument parser together recover exactly the one argument given.
   */
  lemma EscapeRoundTrip(s: string, doubled: bool)
    ensures Escape(s, doubled).None? <==> '\r' in s || '\n' in s
    ensures Escape(s, doubled).Some? ==>
              ReadArguments(RemoveLayers(Escape(s, doubled).value, doubled), false, "", false) == [s]
  {
    if Escape(s, doubled).Some? {
      if s == [] {
        EmptyArgument();
      } else {
        PrintedRoundTrip(s);
        CaretsRoundTrip(Printed(s));
        CaretsRoundTrip(EscapeOnce(Printed(s)));
      }
    }
  }

  lemma EmptyArgument()
    ensures RemoveCarets("\"\"") == "\"\"" && ReadArguments("\"\"", false, "", false) == [""]
  {
    var q := "\"\"";
    assert q[1..] == "\"" && "\""[1..] == "";
    assert RemoveCarets("\"") == "\"";
    assert ReadArguments("\"", true, "", true) == [""];
  }

  // ----- No active metacharacter -----

  /** The characters that cmd acts on, and the blank. */
  predicate ActedOn(c: char) {
    || c == ' ' || c == '!' || c == '%' || c == '^' || c == '&' || c == '(' || c == ')'
    || c == '<' || c == '>' || c == '|' || c == '"'
  }

  lemma SpecialIff(c: char)
    ensures Special(c) <==> ActedOn(c)
  {
    var all := " !%^&()<>|\"";
    assert all[0] == ' ' && all[1] == '!' && all[2] == '%' && all[3] == '^' && all[4] == '&' && all[5] == '('
           && all[6] == ')' && all[7] == '<' && all[8] == '>' && all[9] == '|' && all[10] == '"';
  }

  /** Every character that cmd would act on is preceded by its own caret. */
  predicate Inert(s: string) {
    s == []
    || (if s[0] == '^' then |s| > 1 && Inert(s[2..]) else !ActedOn(s[0]) && Inert(s[1..]))
  }

  /** One pass of carets leaves no bare metacharacter. */
  lemma {:induction false} EscapedIsInert(s: string)
    ensures Inert(EscapeOnce(s))
  {
    if s != [] {
      EscapedIsInert(s[1..]);
      SpecialIff(s[0]);
      var e := EscapeOnce(s);
      if Special(s[0]) {
        assert e == ['^', s[0]] + EscapeOnce(s[1..]);
        assert e[2..] == EscapeOnce(s[1..]);
      } else {
        assert e == [s[0]] + EscapeOnce(s[1..]);
        assert e[1..] == EscapeOnce(s[1..]);
      }
    }
  }

  lemma BareQuotes()
    ensures !Inert("\"\"")
  {
    assert "\"\""[0] == '"' && ActedOn('"');
  }

  /**
   Exact: what is printed has no bare metacharacter if and only if the argument is not
   empty; a doubled one has none either after its first layer of carets is gone. The
   empty argument is printed as two bare quotes.
   */
  lemma EscapeIsInertIff(s: string, doubled: bool)
    requires Escape(s, doubled).Some?
    ensures Inert(Escape(s, doubled).value) <==> s != []
    ensures doubled ==> (Inert(RemoveCarets(Escape(s, doubled).value)) <==> s != [])
  {
    if s == [] {
      BareQuotes();
      EmptyArgument();
    } else {
      EscapedIsInert(Printed(s));
      EscapedIsInert(EscapeOnce(Printed(s)));
      CaretsRoundTrip(EscapeOnce(Printed(s)));
    }
  }

  // ----- Nothing more than is needed -----

  lemma {:induction false} CaretsAppend(a: string, b: string)
    ensures EscapeOnce(a + b) == EscapeOnce(a) + EscapeOnce(b)
  {
    if a == [] {
      assert a + b == b;
    } else {
      CaretsAppend(a[1..], b);
      EscapeFront(a);
      EscapeFront(a + b);
      assert (a + b)[0] == a[0] && (a + b)[1..] == a[1..] + b;
      Regroup(if Special(a[0]) then "^" + [a[0]] else [a[0]], EscapeOnce(a[1..]), EscapeOnce(b), "");
    }
  }

  /** Carets go in front of exactly those characters, one by one. */
  lemma CaretsShape(a: string, b: string, c: char)
    ensures EscapeOnce(a + b) == EscapeOnce(a) + EscapeOnce(b)
    ensures EscapeOnce([c]) == if ActedOn(c) then ['^', c] else [c]
  {
    CaretsAppend(a, b);
    SpecialIff(c);
    assert [c][1..] == [];
  }

  lemma {:induction false} BodyOfRun(n: nat, m: nat, rest: string)
    ensures QuotedBody(Repeat('\\', n) + rest, m) == QuotedBody(rest, n + m)
    decreases n
  {
    var s := Repeat('\\', n) + rest;
    if n == 0 {
      assert s == rest;
    } else {
      assert s[1..] == Repeat('\\', n - 1) + rest;
      BodyOfRun(n - 1, m + 1, rest);
    }
  }

  /**
   Run by run: backslashes stay as they are in front of a plain character; in front of a quote
   they are doubled and one more escapes it; at the end they are doubled.
   */
  lemma BodyShape(n: nat, c: char, rest: string)
    requires c != '\\'
    ensures QuotedBody(Repeat('\\', n) + ([c] + rest), 0)
            == (if c == '"' then Repeat('\\', n * 2 + 1) + "\"" else Repeat('\\', n) + [c]) + QuotedBody(rest, 0)
    ensures QuotedBody(Repeat('\\', n), 0) == Repeat('\\', n * 2)
  {
    BodyOfRun(n, 0, [c] + rest);
    assert ([c] + rest)[1..] == rest;
    BodyOfRun(n, 0, "");
    assert Repeat('\\', n) + "" == Repeat('\\', n);
  }

  lemma {:induction false} BodyIsLonger(s: string, n: nat)
    ensures |QuotedBody(s, n)| >= |s| + n
    decreases |s|
  {
    if s != [] { BodyIsLonger(s[1..], if s[0] == '\\' then n + 1 else 0); }
  }

  /** An argument is quoted if and only if it has a blank, a tab of either kind or a quote. */
  lemma PrintedIsPlainIff(s: string)
    ensures Printed(s) == s <==> ' ' !in s && '\t' !in s && '\U{000B}' !in s && '"' !in s
    ensures Printed(s) != s ==> Printed(s) == "\"" + QuotedBody(s, 0) + "\""
  {
    BodyIsLonger(s, 0);
  }

  /** What is printed: two quotes for nothing, otherwise one or two layers of carets. */
  lemma EscapeShape(s: string, doubled: bool)
    requires Escape(s, doubled).Some?
    ensures s == [] ==> Escape(s, doubled).value == "\"\""
    ensures s != [] ==> RemoveLayers(Escape(s, doubled).value, doubled) == Printed(s)
    ensures s != [] && doubled ==> RemoveCarets(Escape(s, true).value) == Escape(s, false).value
  {
    CaretsRoundTrip(Printed(s));
    CaretsRoundTrip(EscapeOnce(Printed(s)));
  }
}
