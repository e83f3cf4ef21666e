/** Path components as the standard library's `Path::components` yields them on Unix. */
module Components {
  import opened Wrappers
  import opened Text

  /** Components that `Path::components` keeps. */
  function Kept(parts: seq<string>): (r: seq<string>)
    ensures forall i :: 0 <= i < |r| ==> r[i] in parts && r[i] != "" && r[i] != "."
  {
    if parts == [] then []
    else
      var rest := Kept(parts[1..]);
      assert forall x :: x in parts[1..] ==> x in parts;
      if parts[0] == "" || parts[0] == "." then rest else [parts[0]] + rest
  }

  lemma {:induction false} KeptStays(parts: seq<string>)
    requires forall i :: 0 <= i < |parts| ==> parts[i] != "" && parts[i] != "."
    ensures Kept(parts) == parts
  {
    if parts != [] { KeptStays(parts[1..]); }
  }

  lemma {:induction false} SplitChars(s: string, c: char, ok: char -> bool)
    requires forall i :: 0 <= i < |s| ==> ok(s[i])
    ensures forall i, j :: 0 <= i < |Split(s, c)| && 0 <= j < |Split(s, c)[i]| ==> ok(Split(s, c)[i][j])
    decreases |s|
  {
    var i := Find(s, c);
    if i < |s| { SplitChars(s[i + 1..], c, ok); }
  }

  // ----- Walking -----

  /** Where a walk along `parts` from a directory ends, or None if it leaves the root. */
  function Land(directory: seq<string>, parts: seq<string>): Option<seq<string>>
    decreases |parts|
  {
    if parts == [] then Some(directory)
    else if parts[0] == "" || parts[0] == "." then Land(directory, parts[1..])
    else if parts[0] == ".." then
      if directory == [] then None else Land(directory[..|directory| - 1], parts[1..])
    else Land(directory + [parts[0]], parts[1..])
  }

  /** Without `..`, a walk passes exactly the components that are kept. */
  lemma {:induction false} LandKept(directory: seq<string>, parts: seq<string>)
    requires ".." !in parts
    ensures Land(directory, parts) == Some(directory + Kept(parts))
    decreases |parts|
  {
    if parts == [] {
      assert directory + Kept(parts) == directory;
    } else {
      assert forall x :: x in parts[1..] ==> x in parts;
      if parts[0] == "" || parts[0] == "." {
        LandKept(directory, parts[1..]);
      } else {
        LandKept(directory + [parts[0]], parts[1..]);
        assert directory + [parts[0]] + Kept(parts[1..]) == directory + Kept(parts);
      }
    }
  }

  lemma {:induction false} KeptElements(parts: seq<string>, part: string)
    ensures part in Kept(parts) <==> part in parts && part != "" && part != "."
  {
    if parts != [] {
      KeptElements(parts[1..], part);
      assert parts == [parts[0]] + parts[1..];
    }
  }

  /** A component that names something. */
  ghost predicate HasRealPart(parts: seq<string>) {
    exists i :: 0 <= i < |parts| && parts[i] != "" && parts[i] != "." && parts[i] != ".."
  }

  lemma KeptIsEmptyIff(parts: seq<string>)
    requires ".." !in parts
    ensures Kept(parts) == [] <==> !HasRealPart(parts)
  {
    if Kept(parts) != [] {
      var part := Kept(parts)[0];
      assert part in parts && part != "" && part != ".";
      var i :| 0 <= i < |parts| && parts[i] == part;
      assert parts[i] in parts;
    }
    if HasRealPart(parts) {
      var i :| 0 <= i < |parts| && parts[i] != "" && parts[i] != "." && parts[i] != "..";
      KeptElements(parts, parts[i]);
    }
  }
}
