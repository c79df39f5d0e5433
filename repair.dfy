/** revise_block and revise_patch: the whole-diff pass of the patch repair.
    A diff is cut into file blocks at `--- a/` / `--- /dev/null` lines and
    each block into hunks at `@@` lines; every hunk goes through
    revise_hunk. The project's files are a map from the path written after
    `--- a/` to the file's text. */
module Repair {
  import opened Results
  import opened Text
  import opened Chunks
  import opened Paths
  import opened Headers
  import opened Revise
  import opened Folds

  /** `re.findall(pat + "(.*)", line)[0]`: the text after the first
      occurrence of `pat`, up to a line feed; None where Python raises. */
  function HeaderPath(line: string, pat: string): (r: Option<string>)
    ensures r.Some? <==> Contains(line, pat)
    ensures r.Some? ==> '\n' !in r.value
  {
    var k := Find(line, pat, 0);
    if k == -1 then None else Some(LineRest(line[k + |pat|..]))
  }

  /** The path of a header line and its normal form; the whole line, twice,
      when the pattern is not found. */
  function PathPair(line: string, pat: string): (string, string) {
    match HeaderPath(line, pat)
    case Some(p) => (p, NormPath(p))
    case None => (line, line)
  }

  /** The two header lines revise_block writes. */
  function NewFileHeader(fa: string, fb: string): seq<string> {
    [Replace("--- a/" + fa, "a/--- ", ""), Replace("+++ b/" + fb, "b/--- ", "")]
  }

  /** revise_hunk, as the step of the hunk loop. */
  function HunkStep(fileLines: seq<string>, force: bool): seq<string> -> Result<(string, bool)> {
    h => RevisedHunk(h, fileLines, force)
  }

  /** revise_block, as the step of the block loop. */
  function BlockStep(tree: map<string, string>, force: bool): seq<string> -> Result<(seq<string>, bool)> {
    b => RevisedBlock(b, tree, force)
  }

  /** revise_block: the block's lines and whether it was fixed. */
  function RevisedBlock(lines: seq<string>, tree: map<string, string>, force: bool): Result<(seq<string>, bool)> {
    if |lines| < 2 then Err("IndexError")
    else
      var (a, fa) := PathPair(lines[0], "--- a/");
      var (b, fb) := PathPair(lines[1], "+++ b/");
      if !((a == b && fa == fb) || fa == "--- /dev/null" || fb == "--- /dev/null") then Err("AssertionError")
      else if a !in tree then Ok((lines, false))
      else RevisedFileBlock(lines, HunkStep(SplitLines(tree[a]), force), NewFileHeader(fa, fb), a != fa || b != fb)
  }

  /** The part of revise_block after the file is read: the new header lines,
      then the hunks, each repaired by `step` (revise_hunk against the file). */
  function RevisedFileBlock(lines: seq<string>, step: seq<string> -> Result<(string, bool)>, header: seq<string>, pathFixed: bool)
    : Result<(seq<string>, bool)>
    requires |lines| >= 2
  {
    match FoldFixes(Pieces(lines, HunkMarker, 2), step)
    case Err(e) => Err(e)
    case Ok((ts, f)) => Ok((header + ts, pathFixed || f))
  }

  /** revise_patch: the repaired diff and whether anything was fixed; when
      anything raises, the diff unchanged and not fixed. */
  function RevisedPatch(patch: string, tree: map<string, string>, force: bool): (string, bool) {
    var lines := SplitLines(patch);
    match FoldFixes(Pieces(lines, FileMarker, 0), BlockStep(tree, force))
    case Err(_) => (patch, false)
    case Ok((bs, f)) => (Join(Flatten(bs), "\n") + "\n", f)
  }

  /** revise_block. */
  method ReviseBlock(lines: seq<string>, tree: map<string, string>, force: bool) returns (r: Result<(seq<string>, bool)>)
    ensures r == RevisedBlock(lines, tree, force)
  {
    if |lines| < 2 {
      return Err("IndexError");
    }
    var (a, fa) := PathPair(lines[0], "--- a/");
    var (b, fb) := PathPair(lines[1], "+++ b/");
    var blockFixed := a != fa || b != fb;
    if !((a == b && fa == fb) || fa == "--- /dev/null" || fb == "--- /dev/null") {
      return Err("AssertionError");
    }
    var fixedLines := NewFileHeader(fa, fb);
    if a !in tree {
      return Ok((lines, false));
    }
    var fileLines := SplitLines(tree[a]);
    var hunks := ReviseBlockHunks(lines, fileLines, force);
    if hunks.Err? {
      return Err(hunks.why);
    }
    r := Ok((fixedLines + hunks.value.0, blockFixed || hunks.value.1));
    assert r == RevisedFileBlock(lines, HunkStep(fileLines, force), fixedLines, blockFixed);
  }

  /** The hunk loop of revise_block. */
  method ReviseBlockHunks(lines: seq<string>, fileLines: seq<string>, force: bool) returns (r: Result<(seq<string>, bool)>)
    requires |lines| >= 2
    ensures r == FoldFixes(Pieces(lines, HunkMarker, 2), HunkStep(fileLines, force))
  {
    var texts: seq<string> := [];
    var hunksFixed := false;
    ghost var step := HunkStep(fileLines, force);
    var last := -1;
    var lineNo := 2;
    while lineNo < |lines|
      invariant 2 <= lineNo <= |lines|
      invariant last == Cut(lines, HunkMarker, 2, lineNo).1
      invariant FoldFixes(Cut(lines, HunkMarker, 2, lineNo).0, step) == Ok((texts, hunksFixed))
    {
      if StartsWith(lines[lineNo], "@@") {
        if last != -1 {
          ghost var done := Cut(lines, HunkMarker, 2, lineNo).0;
          FoldFixesSnoc(done, lines[last..lineNo], step);
          var h := ReviseHunk(lines[last..lineNo], fileLines, force);
          if h.Err? {
            PiecesExtendCut(lines, HunkMarker, 2, lineNo + 1);
            FoldFixesErrStays(done + [lines[last..lineNo]], Pieces(lines, HunkMarker, 2), step);
            return Err(h.why);
          }
          texts := texts + [h.value.0];
          hunksFixed := hunksFixed || h.value.1;
        }
        last := lineNo;
      }
      lineNo := lineNo + 1;
    }
    ghost var done := Cut(lines, HunkMarker, 2, |lines|).0;
    if last != -1 {
      FoldFixesSnoc(done, lines[last..], step);
      var h := ReviseHunk(lines[last..], fileLines, force);
      if h.Err? {
        return Err(h.why);
      }
      texts := texts + [h.value.0];
      hunksFixed := hunksFixed || h.value.1;
    }
    r := Ok((texts, hunksFixed));
  }

  /** revise_patch. */
  method RevisePatch(patch: string, tree: map<string, string>, force: bool) returns (revised: string, fixed: bool)
    ensures (revised, fixed) == RevisedPatch(patch, tree, force)
  {
    var lines := SplitLines(patch);
    var fixedLines: seq<string> := [];
    fixed := false;
    ghost var blocks: seq<seq<string>> := [];
    ghost var step := BlockStep(tree, force);
    var last := -1;
    var lineNo := 0;
    while lineNo < |lines|
      invariant 0 <= lineNo <= |lines|
      invariant last == Cut(lines, FileMarker, 0, lineNo).1
      invariant FoldFixes(Cut(lines, FileMarker, 0, lineNo).0, step) == Ok((blocks, fixed))
      invariant fixedLines == Flatten(blocks)
    {
      CutStep(lines, FileMarker, 0, lineNo);
      if StartsWith(lines[lineNo], "--- a/") || StartsWith(lines[lineNo], "--- /dev/null") {
        if last != -1 {
          var ok;
          ok, fixedLines, blocks, fixed := CloseBlock(lines, tree, force, last, lineNo, fixedLines, blocks, fixed);
          if !ok {
            return patch, false;
          }
        }
        last := lineNo;
      }
      lineNo := lineNo + 1;
    }
    ghost var done := Cut(lines, FileMarker, 0, |lines|).0;
    if last != -1 {
      FoldFixesSnoc(done, lines[last..], step);
      var bl := ReviseBlock(lines[last..], tree, force);
      if bl.Err? {
        return patch, false;
      }
      FlattenAppend(blocks, bl.value.0);
      fixedLines := fixedLines + bl.value.0;
      blocks := blocks + [bl.value.0];
      fixed := fixed || bl.value.1;
    }
    revised := Join(fixedLines, "\n") + "\n";
  }

  /** The body of the loop of revise_patch at a file header: the block
      before it is revised and appended; false when revise_block raises,
      and then the whole fold fails. */
  method CloseBlock(lines: seq<string>, tree: map<string, string>, force: bool, last: nat, lineNo: nat,
                    fixedLines0: seq<string>, ghost blocks0: seq<seq<string>>, fixed0: bool)
    returns (ok: bool, fixedLines: seq<string>, ghost blocks: seq<seq<string>>, fixed: bool)
    requires last < lineNo < |lines| && last == Cut(lines, FileMarker, 0, lineNo).1
    requires IsMarker(FileMarker, lines[lineNo])
    requires FoldFixes(Cut(lines, FileMarker, 0, lineNo).0, BlockStep(tree, force)) == Ok((blocks0, fixed0))
    requires fixedLines0 == Flatten(blocks0)
    ensures ok ==> FoldFixes(Cut(lines, FileMarker, 0, lineNo).0 + [lines[last..lineNo]], BlockStep(tree, force)) == Ok((blocks, fixed))
    ensures ok ==> fixedLines == Flatten(blocks)
    ensures !ok ==> FoldFixes(Pieces(lines, FileMarker, 0), BlockStep(tree, force)).Err?
  {
    ghost var step := BlockStep(tree, force);
    ghost var done := Cut(lines, FileMarker, 0, lineNo).0;
    var block := lines[last..lineNo];
    var bl := ReviseBlock(block, tree, force);
    assert step(block) == bl;
    if bl.Err? {
      FoldFixesSnocErr(done, block, step);
      PiecesExtendCut(lines, FileMarker, 0, lineNo + 1);
      CutStep(lines, FileMarker, 0, lineNo);
      FoldFixesErrStays(done + [block], Pieces(lines, FileMarker, 0), step);
      return false, fixedLines0, blocks0, fixed0;
    }
    FoldFixesSnocOk(done, block, step, blocks0, fixed0, bl.value.0, bl.value.1);
    FlattenAppend(blocks0, bl.value.0);
    fixedLines := fixedLines0 + bl.value.0;
    blocks := blocks0 + [bl.value.0];
    fixed := fixed0 || bl.value.1;
    ok := true;
  }

  // ----- what revise_block and revise_patch promise -----

  /** One block that raises leaves the whole diff as it was, not fixed. */
  lemma FailingBlockKeepsPatch(patch: string, tree: map<string, string>, force: bool, i: nat)
    requires var blocks := Pieces(SplitLines(patch), FileMarker, 0);
      i < |blocks| && RevisedBlock(blocks[i], tree, force).Err?
    ensures RevisedPatch(patch, tree, force) == (patch, false)
  {
    FoldFixesSpec(Pieces(SplitLines(patch), FileMarker, 0), BlockStep(tree, force));
  }

  /** A diff without any `--- a/` or `--- /dev/null` line revises to a lone
      line feed, not fixed. */
  lemma NoFileHeaderGivesNewline(patch: string, tree: map<string, string>, force: bool)
    requires forall k :: 0 <= k < |SplitLines(patch)| ==> !IsMarker(FileMarker, SplitLines(patch)[k])
    ensures RevisedPatch(patch, tree, force) == ("\n", false)
  {
    NoMarkerNoPieces(SplitLines(patch), FileMarker, 0);
    assert FoldFixes(Pieces(SplitLines(patch), FileMarker, 0), BlockStep(tree, force)) == Ok(([], false));
    var empty: seq<seq<string>> := [];
    assert RevisedPatch(patch, tree, force) == (Join(Flatten(empty), "\n") + "\n", false);
    assert Flatten(empty) == [];
    assert Join([], "\n") + "\n" == "\n";
  }

  /** A block whose file is not in the project is kept as it is. */
  lemma MissingFileKeepsBlock(lines: seq<string>, tree: map<string, string>, force: bool)
    requires |lines| >= 2
    requires var (a, fa) := PathPair(lines[0], "--- a/");
      var (b, fb) := PathPair(lines[1], "+++ b/");
      ((a == b && fa == fb) || fa == "--- /dev/null" || fb == "--- /dev/null") && a !in tree
    ensures RevisedBlock(lines, tree, force) == Ok((lines, false))
  {
  }

  /** A block of a file that exists: the two new header lines, then each of
      its hunks revised, in order; fixed exactly when a path was normalised
      or some hunk was fixed. */
  lemma RevisedBlockShape(lines: seq<string>, step: seq<string> -> Result<(string, bool)>, header: seq<string>, pathFixed: bool)
    requires |lines| >= 2
    ensures var r := RevisedFileBlock(lines, step, header, pathFixed);
      var hunks := Pieces(lines, HunkMarker, 2);
      (r.Ok? <==> forall i :: 0 <= i < |hunks| ==> step(hunks[i]).Ok?)
      && (r.Ok? ==>
        |r.value.0| == |header| + |hunks| && r.value.0[..|header|] == header
        && (forall i :: 0 <= i < |hunks| ==> r.value.0[|header| + i] == step(hunks[i]).value.0)
        && (r.value.1 <==> pathFixed || exists i :: 0 <= i < |hunks| && step(hunks[i]).value.1))
  {
    var hunks := Pieces(lines, HunkMarker, 2);
    FoldFixesSpec(hunks, step);
    var o := FoldFixes(hunks, step);
    if o.Ok? {
      var out := header + o.value.0;
      assert forall i :: 0 <= i < |hunks| ==> out[|header| + i] == o.value.0[i];
    }
  }

  /** "+++ /dev/null" holds no "+++ b/". */
  lemma DevNullHasNoPath()
    ensures HeaderPath("+++ /dev/null", "+++ b/") == None
  {
    var s := "+++ /dev/null";
    assert forall k :: 0 <= k < |s| ==> s[k] != 'b';
    forall k | 0 <= k && k + 6 <= |s|
      ensures !OccursAt(s, "+++ b/", k)
    {
      assert s[k..k + 6][4] == s[k + 4];
    }
  }

  /** A block deleting a file, `--- a/p` then `+++ /dev/null`, fails the
      path check of revise_block, so it raises (and revise_patch then keeps
      the whole diff as it was). */
  lemma DeletedFileBlockRaises(p: string, rest: seq<string>, tree: map<string, string>, force: bool)
    requires '\n' !in p && p != "+++ /dev/null" && NormPath(p) != "--- /dev/null"
    ensures RevisedBlock(["--- a/" + p, "+++ /dev/null"] + rest, tree, force) == Err("AssertionError")
  {
    var l0 := "--- a/" + p;
    assert OccursAt(l0, "--- a/", 0);
    assert l0[6..] == p;
    Headers.LineRestWhole(p);
    assert HeaderPath(l0, "--- a/") == Some(p);
    DevNullHasNoPath();
    var lines := ["--- a/" + p, "+++ /dev/null"] + rest;
    assert lines[0] == l0 && lines[1] == "+++ /dev/null";
    assert "+++ /dev/null" != "--- /dev/null" by {
      assert "+++ /dev/null"[0] != "--- /dev/null"[0];
    }
  }
}
