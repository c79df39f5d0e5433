/** POSIX `os.path.normpath`, which revise_block applies to the paths it
    reads from the `--- a/` and `+++ b/` header lines. */
module Paths {
  import opened Text

  /** Leading slashes: 0, 1, or exactly 2 (POSIX keeps `//` but folds three or more into one). */
  function LeadingSlashes(path: string): (r: nat)
    ensures r <= 2
  {
    if !StartsWith(path, "/") then 0
    else if StartsWith(path, "//") && !StartsWith(path, "///") then 2
    else 1
  }

  /** The component loop: empty and `.` components vanish, `..` cancels the
      previous component unless that is `..` too; a leading `..` is kept
      only in a relative path. */
  function Fold(comps: seq<string>, acc: seq<string>, absolute: bool): seq<string>
    decreases |comps|
  {
    if comps == [] then acc
    else
      var c := comps[0];
      if c == "" || c == "." then Fold(comps[1..], acc, absolute)
      else if c != ".." || (!absolute && acc == []) || (acc != [] && acc[|acc| - 1] == "..") then
        Fold(comps[1..], acc + [c], absolute)
      else if acc != [] then Fold(comps[1..], acc[..|acc| - 1], absolute)
      else Fold(comps[1..], acc, absolute)
  }

  /** `n` empty components: what `split("/")` yields for leading slashes. */
  function Empties(n: nat): seq<string> {
    seq(n, _ => "")
  }

  function Slashes(n: nat): string {
    seq(n, _ => '/')
  }

  /** `os.path.normpath(path)` on POSIX. */
  function NormPath(path: string): (r: string)
    ensures r != ""
  {
    if path == "" then "."
    else
      var n := LeadingSlashes(path);
      var body := Join(Fold(Split(path, '/'), [], n > 0), "/");
      var p := Slashes(n) + body;
      if p == "" then "." else p
  }

  /** Components in normal form: none empty, `.` or holding a slash, and
      `..` only in a run at the start of a relative path. */
  predicate Clean(cs: seq<string>, absolute: bool) {
    forall k :: 0 <= k < |cs| ==>
      cs[k] != "" && cs[k] != "." && '/' !in cs[k]
      && (cs[k] == ".." ==> !absolute && forall k' :: 0 <= k' < k ==> cs[k'] == "..")
  }

  lemma {:induction false} FoldClean(comps: seq<string>, acc: seq<string>, absolute: bool)
    requires Clean(acc, absolute)
    requires forall k :: 0 <= k < |comps| ==> '/' !in comps[k]
    ensures Clean(Fold(comps, acc, absolute), absolute)
    decreases |comps|
  {
    if comps != [] {
      var c := comps[0];
      if c == "" || c == "." {
        FoldClean(comps[1..], acc, absolute);
      } else if c != ".." || (!absolute && acc == []) || (acc != [] && acc[|acc| - 1] == "..") {
        assert Clean(acc + [c], absolute);
        FoldClean(comps[1..], acc + [c], absolute);
      } else if acc != [] {
        assert Clean(acc[..|acc| - 1], absolute);
        FoldClean(comps[1..], acc[..|acc| - 1], absolute);
      } else {
        FoldClean(comps[1..], acc, absolute);
      }
    }
  }

  /** The loop keeps components that are already in normal form. */
  lemma {:induction false} FoldOfClean(comps: seq<string>, acc: seq<string>, absolute: bool)
    requires Clean(acc + comps, absolute)
    ensures Fold(comps, acc, absolute) == acc + comps
    decreases |comps|
  {
    if comps != [] {
      var c := comps[0];
      assert (acc + comps)[|acc|] == c;
      assert acc + comps == (acc + [c]) + comps[1..];
      if c == ".." && acc != [] {
        assert (acc + comps)[|acc| - 1] == acc[|acc| - 1];
      }
      FoldOfClean(comps[1..], acc + [c], absolute);
    }
  }

  /** The shape of every result: `.` or the kept slashes followed by the
      joined components, which are in normal form. */
  lemma NormPathShape(path: string)
    ensures var n := LeadingSlashes(path);
      var cs := Fold(Split(path, '/'), [], n > 0);
      Clean(cs, n > 0)
      && (path == "" || NormPath(path) == (if Slashes(n) + Join(cs, "/") == "" then "." else Slashes(n) + Join(cs, "/")))
  {
    var n := LeadingSlashes(path);
    FoldClean(Split(path, '/'), [], n > 0);
  }

  lemma JoinFirstChar(cs: seq<string>)
    requires cs != [] && cs[0] != ""
    ensures Join(cs, "/") != [] && Join(cs, "/")[0] == cs[0][0]
  {
    if |cs| > 1 {
      JoinConcat([cs[0]], cs[1..], "/");
      assert [cs[0]] + cs[1..] == cs;
    }
  }

  /** `n` leading empty pieces joined by `/` give `n` slashes (for `n` of 1 or 2). */
  lemma SlashedJoin(n: nat, tail: seq<string>)
    requires 1 <= n <= 2 && tail != []
    ensures Join(Empties(n) + tail, "/") == Slashes(n) + Join(tail, "/")
  {
    JoinConcat(Empties(n), tail, "/");
    if n == 2 {
      assert Empties(n) == [""] + [""];
      assert Join(Empties(n), "/") == "/";
    }
  }

  /** The leading slashes of a path written with `n` slashes and components in normal form. */
  lemma LeadingSlashesOfNormal(n: nat, cs: seq<string>)
    requires n <= 2 && Clean(cs, n > 0) && (n == 0 ==> cs != [])
    ensures LeadingSlashes(Slashes(n) + Join(cs, "/")) == n
  {
    var p := Slashes(n) + Join(cs, "/");
    if cs != [] {
      JoinFirstChar(cs);
      assert p[n] == cs[0][0];
      assert cs[0][0] != '/';
    }
    if n == 2 && cs == [] {
      assert p == "//";
    }
  }

  /** The pieces `split("/")` gives for a path written with `n` slashes and
      components in normal form. */
  lemma SplitOfNormal(n: nat, cs: seq<string>)
    requires n <= 2 && Clean(cs, n > 0)
    ensures Split(Slashes(n) + Join(cs, "/"), '/') == Empties(n) + (if cs == [] then [""] else cs)
  {
    var tail := if cs == [] then [""] else cs;
    var pieces := Empties(n) + tail;
    assert Join(cs, "/") == Join(tail, "/");
    if n == 0 {
      assert pieces == tail;
      assert Slashes(n) + Join(cs, "/") == Join(tail, "/");
    } else {
      SlashedJoin(n, tail);
    }
    assert forall k :: 0 <= k < |pieces| ==> '/' !in pieces[k];
    SplitOfJoin(pieces, '/');
  }

  /** A path written with `n` slashes and components in normal form is its own normal form. */
  lemma NormPathOfNormal(n: nat, cs: seq<string>)
    requires n <= 2 && Clean(cs, n > 0) && (n == 0 ==> cs != [])
    ensures NormPath(Slashes(n) + Join(cs, "/")) == Slashes(n) + Join(cs, "/")
  {
    var p := Slashes(n) + Join(cs, "/");
    var tail := if cs == [] then [""] else cs;
    SplitOfNormal(n, cs);
    LeadingSlashesOfNormal(n, cs);
    FoldEmpties(n, tail, n > 0);
    FoldOfClean(cs, [], n > 0);
    assert Fold(Split(p, '/'), [], n > 0) == cs;
    if cs != [] {
      JoinFirstChar(cs);
    }
    assert p != "";
  }

  /** Leading empty components contribute nothing. */
  lemma {:induction false} FoldEmpties(n: nat, rest: seq<string>, absolute: bool)
    ensures Fold(Empties(n) + rest, [], absolute) == Fold(rest, [], absolute)
    decreases n
  {
    if n > 0 {
      assert (Empties(n) + rest)[0] == "";
      assert (Empties(n) + rest)[1..] == Empties(n - 1) + rest;
      assert Fold(Empties(n) + rest, [], absolute) == Fold(Empties(n - 1) + rest, [], absolute);
      FoldEmpties(n - 1, rest, absolute);
    } else {
      assert Empties(n) + rest == rest;
    }
  }

  /** `normpath` is idempotent. */
  lemma NormPathIdempotent(path: string)
    ensures NormPath(NormPath(path)) == NormPath(path)
  {
    if path != "" {
      var n := LeadingSlashes(path);
      var cs := Fold(Split(path, '/'), [], n > 0);
      NormPathShape(path);
      var p := Slashes(n) + Join(cs, "/");
      if p == "" {
        assert NormPath(".") == "." by {
          assert Split(".", '/') == ["."];
        }
      } else {
        NormPathOfNormal(n, cs);
      }
    } else {
      assert Split(".", '/') == ["."];
    }
  }
}
