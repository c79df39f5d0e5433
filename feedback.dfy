/** Text the backporter sends back to the model: a window of a file
    (`_viewcode`), and after a failed apply the file snippet the hunk most
    likely targets together with the list of hunk lines whose context
    differs from the file (`_apply_error_handling`). */
module Feedback {
  import opened Results
  import opened Text
  import opened PyList
  import opened Alignment
  import opened Repair

  // ---------------------------------------------------------------------
  // _viewcode

  /** The window after the clamp: a window that runs past the end of the
      file is moved back, keeping its width, so that it ends at the last line. */
  function Clamp(startline: int, endline: int, n: nat): (r: (int, int))
    ensures r.1 - r.0 == endline - startline
    ensures endline <= n ==> r == (startline, endline)
    ensures endline > n ==> r.1 == n
  {
    if endline > n then (startline - (endline - n), n) else (startline, endline)
  }

  /** `lines[i]` for each `i` in `range(lo, hi)`, read with Python's
      wrap-around; None when one of them raises. */
  function ViewLines(lines: seq<string>, lo: int, hi: int): Option<seq<string>>
    decreases hi - lo
  {
    if hi <= lo then Some([])
    else match ViewLines(lines, lo, hi - 1)
      case None => None
      case Some(v) =>
        match PyIndex(lines, hi - 1)
        case None => None
        case Some(x) => Some(v + [x])
  }

  /** The lines are read exactly when every position is in range, and
      then the `k`-th one shown is the line at `lo + k`. */
  lemma {:induction false} ViewLinesSpec(lines: seq<string>, lo: int, hi: int)
    ensures var v := ViewLines(lines, lo, hi);
      (v.Some? <==> forall i :: lo <= i < hi ==> PyIndex(lines, i).Some?)
      && (v.Some? ==>
            |v.value| == Max0(hi - lo)
            && forall k :: 0 <= k < |v.value| ==> v.value[k] == PyIndex(lines, lo + k).value)
    decreases hi - lo
  {
    if hi > lo {
      ViewLinesSpec(lines, lo, hi - 1);
    }
  }

  /** A window inside the file shows exactly the file's lines `startline`
      through `endline`, counted from 1. */
  lemma ViewLinesInside(lines: seq<string>, startline: int, endline: int)
    requires 1 <= startline <= endline <= |lines|
    ensures ViewLines(lines, startline - 1, endline) == Some(lines[startline - 1..endline])
  {
    ViewLinesSpec(lines, startline - 1, endline);
    var v := ViewLines(lines, startline - 1, endline).value;
    var w := lines[startline - 1..endline];
    forall k | 0 <= k < |v|
      ensures v[k] == w[k]
    {
      assert PyIndex(lines, startline - 1 + k) == Some(lines[startline - 1 + k]);
    }
    assert v == w;
  }

  /** The window loop of `_viewcode`. */
  method ReadWindow(lines: seq<string>, lo: int, hi: int) returns (r: Option<seq<string>>)
    ensures r == ViewLines(lines, lo, hi)
  {
    var got: seq<string> := [];
    var i := lo;
    while i < hi
      invariant lo <= i && (i <= hi || i == lo)
      invariant ViewLines(lines, lo, i) == Some(got)
      decreases hi - i
    {
      var x := PyIndex(lines, i);
      if x.None? {
        ViewLinesNoneStays(lines, lo, i + 1, hi);
        return None;
      }
      got := got + [x.value];
      i := i + 1;
    }
    r := Some(got);
  }

  /** Once a position raises, every longer window raises. */
  lemma {:induction false} ViewLinesNoneStays(lines: seq<string>, lo: int, mid: int, hi: int)
    requires lo < mid <= hi && ViewLines(lines, lo, mid).None?
    ensures ViewLines(lines, lo, hi).None?
    decreases hi - mid
  {
    if mid < hi {
      ViewLinesNoneStays(lines, lo, mid + 1, hi);
    }
  }

  const NoSuchFile := "This file doesn't exist in this commit."
  const ViewSuffix := "\nBased on the previous information, think carefully do you see the target code? You may want to keep checking if you don't.\n"

  /** The first line of the answer, which tells the window shown. */
  function ViewHeader(startline: int, endline: int, n: nat, clamped: bool): string {
    (if clamped then "This file only has " + NatToString(n) + " lines. " else "")
    + "Here are lines " + IntToString(startline) + " through " + IntToString(endline) + ".\n"
  }

  /** `_viewcode` on the file's content (None when the ref has no such
      file); Err when a line of the window raises. */
  function ViewCodeText(content: Option<string>, startline: int, endline: int): Result<string>
  {
    match content
    case None => Ok(NoSuchFile)
    case Some(c) =>
      var lines := Split(c, '\n');
      var (s, e) := Clamp(startline, endline, |lines|);
      match ViewLines(lines, s - 1, e)
      case None => Err("IndexError")
      case Some(v) => Ok(Join([ViewHeader(s, e, |lines|, endline > |lines|)] + v, "\n") + ViewSuffix)
  }

  /** `_viewcode`: moves the window back, then reads its lines one by one. */
  method ViewCode(content: Option<string>, startline: int, endline: int) returns (r: Result<string>)
    ensures r == ViewCodeText(content, startline, endline)
  {
    if content.None? {
      return Ok(NoSuchFile);
    }
    var lines := Split(content.value, '\n');
    var s, e := startline, endline;
    var head;
    if e > |lines| {
      s := s - (e - |lines|);
      e := |lines|;
      head := ViewHeader(s, e, |lines|, true);
    } else {
      head := ViewHeader(s, e, |lines|, false);
    }
    assert (s, e) == Clamp(startline, endline, |lines|);
    assert head == ViewHeader(s, e, |lines|, endline > |lines|);
    var body := ReadWindow(lines, s - 1, e);
    if body.None? {
      return Err("IndexError");
    }
    r := Ok(Join([head] + body.value, "\n") + ViewSuffix);
  }

  // ---------------------------------------------------------------------
  // _apply_error_handling

  /** One entry of the context diff: the line number in the patch, the
      hunk's text and the file's text. */
  datatype Mismatch = Mismatch(line: nat, ours: string, theirs: string)

  /** The file index the `k`-th patch line is compared with: the running
      index `j` counts the context and removed lines before it. */
  function Pos(pl: seq<string>, lineno: int, k: nat): int
    requires k <= |pl|
  {
    lineno - 1 + OldCount(pl, k)
  }

  /** The number of context and removed lines among the first `k`. */
  function OldCount(pl: seq<string>, k: nat): (r: nat)
    requires k <= |pl|
    ensures r <= k
  {
    if k == 0 then 0 else OldCount(pl, k - 1) + (if IsOldLine(pl[k - 1]) then 1 else 0)
  }

  /** Patch line `k` is a context or removed line whose text differs from
      the file line it is compared with. */
  predicate Differs(pl: seq<string>, lines: seq<string>, lineno: int, k: nat)
    requires k < |pl|
  {
    IsOldLine(pl[k]) && PyIndex(lines, Pos(pl, lineno, k)).Some?
    && pl[k][1..] != PyIndex(lines, Pos(pl, lineno, k)).value
  }

  /** One patch line of the loop: a context or removed line is compared
      with the file line at `Pos`; a difference is recorded with the line's
      number in the patch (its index plus 4, the first three lines being
      headers); an index out of range raises. */
  function MismatchStep(pl: seq<string>, lines: seq<string>, lineno: int, ms: seq<Mismatch>, k: nat)
    : Result<seq<Mismatch>>
    requires k < |pl|
  {
    var ctx := pl[k];
    if !IsOldLine(ctx) then Ok(ms)
    else match PyIndex(lines, Pos(pl, lineno, k))
      case None => Err("IndexError")
      case Some(t) => if ctx[1..] != t then Ok(ms + [Mismatch(k + 4, ctx[1..], t)]) else Ok(ms)
  }

  /** The loop over the patch lines after the first three, over the first
      `n` of them. */
  function Mismatches(pl: seq<string>, lines: seq<string>, lineno: int, n: nat): Result<seq<Mismatch>>
    requires n <= |pl|
    decreases n
  {
    if n == 0 then Ok([])
    else match Mismatches(pl, lines, lineno, n - 1)
      case Err(e) => Err(e)
      case Ok(ms) => MismatchStep(pl, lines, lineno, ms, n - 1)
  }

  /** The loop raises exactly when some compared file index is out of range. */
  lemma {:induction false} MismatchesRaises(pl: seq<string>, lines: seq<string>, lineno: int, n: nat)
    requires n <= |pl|
    ensures Mismatches(pl, lines, lineno, n).Ok?
      <==> forall k :: 0 <= k < n && IsOldLine(pl[k]) ==> PyIndex(lines, Pos(pl, lineno, k)).Some?
    decreases n
  {
    if n > 0 {
      MismatchesRaises(pl, lines, lineno, n - 1);
    }
  }

  /** Every entry is a line that differs, with the two texts compared. */
  lemma {:induction false} MismatchesSound(pl: seq<string>, lines: seq<string>, lineno: int, n: nat)
    requires n <= |pl| && Mismatches(pl, lines, lineno, n).Ok?
    ensures forall m :: m in Mismatches(pl, lines, lineno, n).value ==>
      4 <= m.line < n + 4 && Differs(pl, lines, lineno, m.line - 4)
      && m.ours == pl[m.line - 4][1..] && m.theirs == PyIndex(lines, Pos(pl, lineno, m.line - 4)).value
    decreases n
  {
    if n > 0 {
      MismatchesSound(pl, lines, lineno, n - 1);
    }
  }

  /** Every line that differs has an entry. */
  lemma {:induction false} MismatchesComplete(pl: seq<string>, lines: seq<string>, lineno: int, n: nat)
    requires n <= |pl| && Mismatches(pl, lines, lineno, n).Ok?
    ensures forall k :: 0 <= k < n && Differs(pl, lines, lineno, k) ==>
      exists m :: m in Mismatches(pl, lines, lineno, n).value && m.line == k + 4
    decreases n
  {
    if n > 0 {
      MismatchesComplete(pl, lines, lineno, n - 1);
      var ms := Mismatches(pl, lines, lineno, n - 1).value;
      var r := Mismatches(pl, lines, lineno, n).value;
      assert forall m :: m in ms ==> m in r;
      if Differs(pl, lines, lineno, n - 1) {
        assert r[|r| - 1].line == n - 1 + 4;
      }
    }
  }

  /** The entries follow the patch's order, so each line appears once. */
  lemma {:induction false} MismatchesOrdered(pl: seq<string>, lines: seq<string>, lineno: int, n: nat)
    requires n <= |pl| && Mismatches(pl, lines, lineno, n).Ok?
    ensures var ms := Mismatches(pl, lines, lineno, n).value;
      forall i, j :: 0 <= i < j < |ms| ==> ms[i].line < ms[j].line
    decreases n
  {
    if n > 0 {
      MismatchesOrdered(pl, lines, lineno, n - 1);
      MismatchesSound(pl, lines, lineno, n - 1);
      var ms := Mismatches(pl, lines, lineno, n - 1).value;
      assert forall i :: 0 <= i < |ms| ==> ms[i] in ms;
    }
  }

  /** Once the loop has raised, it stays raised. */
  lemma {:induction false} MismatchesErrStays(pl: seq<string>, lines: seq<string>, lineno: int, n: nat, m: nat)
    requires n <= m <= |pl| && Mismatches(pl, lines, lineno, n).Err?
    ensures Mismatches(pl, lines, lineno, m) == Mismatches(pl, lines, lineno, n)
    decreases m - n
  {
    if n < m {
      MismatchesErrStays(pl, lines, lineno, n, m - 1);
    }
  }

  // The snippet of the file

  /** `lines[i] + "\n"` for each `i` in `range(lo, hi)`. */
  function SnippetLines(lines: seq<string>, lo: nat, hi: int): string
    requires hi <= lo || hi <= |lines|
    decreases hi - lo
  {
    if hi <= lo then "" else SnippetLines(lines, lo, hi - 1) + lines[hi - 1] + "\n"
  }

  /** The snippet read back line by line is exactly the file's lines `lo`
      up to `hi`, when no line holds a line break. */
  lemma {:induction false} SnippetReadBack(lines: seq<string>, lo: nat, hi: int)
    requires lo < hi <= |lines| && forall k :: 0 <= k < |lines| ==> '\n' !in lines[k]
    ensures Split(SnippetLines(lines, lo, hi), '\n') == lines[lo..hi] + [""]
    decreases hi - lo
  {
    SnippetJoin(lines, lo, hi);
    var xs := lines[lo..hi] + [""];
    assert forall k :: 0 <= k < |xs| ==> '\n' !in xs[k] by {
      forall k | 0 <= k < |xs| ensures '\n' !in xs[k] {
        if k < hi - lo {
          assert xs[k] == lines[lo + k];
        }
      }
    }
    JoinAppend(lines[lo..hi], "", "\n");
    assert Join(xs, "\n") == SnippetLines(lines, lo, hi);
    SplitOfJoin(xs, '\n');
  }

  lemma {:induction false} SnippetJoin(lines: seq<string>, lo: nat, hi: int)
    requires lo < hi <= |lines|
    ensures SnippetLines(lines, lo, hi) == Join(lines[lo..hi], "\n") + "\n"
    decreases hi - lo
  {
    if hi - 1 > lo {
      SnippetJoin(lines, lo, hi - 1);
      JoinAppend(lines[lo..hi - 1], lines[hi - 1], "\n");
      assert lines[lo..hi - 1] + [lines[hi - 1]] == lines[lo..hi];
    } else {
      assert lines[lo..hi] == [lines[lo]];
    }
  }

  /** The lines shown around the window found: from `lineno - 1` (at least
      0) up to `lineno + num_context` (at most the end of the file). */
  function SnippetBounds(lineno: int, numContext: nat, n: nat): (r: (nat, int))
    ensures r.1 <= n
  {
    (Max0(lineno - 1), if lineno + numContext < n then lineno + numContext else n)
  }

  function Block(path: string, ref: string, lines: seq<string>, lineno: int, numContext: nat): string {
    var (lo, hi) := SnippetBounds(lineno, numContext, |lines|);
    "Here are lines " + IntToString(lo) + " through " + IntToString(hi) + " of file " + path + " for commit " + ref + ".\n"
    + "```code snippet\n" + SnippetLines(lines, lo, hi) + "```\n"
  }

  // The context diff as text

  function MismatchText(m: Mismatch): string {
    "On the line " + NatToString(m.line) + " of your patch.\n"
    + "          Your patch:" + m.ours + "\n"
    + "Original source code:" + m.theirs + "\n"
  }

  function MismatchesText(ms: seq<Mismatch>): (r: string)
    ensures r == [] <==> ms == []
  {
    if ms == [] then "" else MismatchesText(ms[..|ms| - 1]) + MismatchText(ms[|ms| - 1])
  }

  const DiffOpen := "```context diff\n"
  const NoDifference := "Here it shows that there is no difference between your context and the original code, the reason for the failure is that you didn't keep at least three lines of source code at the beginning and end of the patch, please follow this to fix it.\n"
  const DiffClose := "```\nPlease eliminate these diffs step by step. Be sure to eliminate these diffs the next time you generate a patch!\n"

  /** The diff text: the entries between fences, or the advice to keep
      three lines of context when there is none (each entry adds text, so
      the text is unchanged exactly when there is no entry). */
  function DifferText(ms: seq<Mismatch>): string {
    if ms == [] then NoDifference else Rendered(ms) + DiffClose
  }

  // Finding the file and the window

  /** The file, its lines and the 1-based start of the window compared with the hunk. */
  datatype Target = Target(path: string, lines: seq<string>, lineno: int)

  /** `path.split("/")[-1]`. */
  function BaseName(path: string): string {
    var parts := Split(path, '/');
    parts[|parts| - 1]
  }

  /** A string handed over where a list of lines is expected: Python then
      iterates over its characters, each a one-character line. */
  function CharLines(s: string): (r: seq<string>)
    ensures |r| == |s|
  {
    seq(|s|, i requires 0 <= i < |s| => [s[i]])
  }

  /** `current_dist < min_distance`, with `float("inf")` for an empty search. */
  predicate Nearer(d: Distance, m: Distance) {
    d.Finite? && Below(d.n, m)
  }

  /** A string handed to `find_most_similar_block` as the pattern: the
      context lines joined by line breaks, iterated character by character. */
  function Pattern(contexts: seq<string>): seq<string> {
    CharLines(Join(contexts, "\n"))
  }

  /** What reading one similar file gives: its lines and the start and
      distance of its most similar block, or the exception raised — a file
      missing from the ref, or a joined context shorter than its line count
      (the refinement indexes the pattern by line). */
  type Probe = string -> Result<(seq<string>, (int, Distance))>

  function ProbeOf(files: map<string, string>, contexts: seq<string>, numContext: nat): Probe
  {
    sf =>
      if sf !in files then Err("KeyError")
      else if numContext > |Pattern(contexts)| then Err("IndexError")
      else
        var sl := Split(files[sf], '\n');
        Ok((sl, MostSimilarBlock(Pattern(contexts), sl, numContext, false)))
  }

  /** One similar file tried: it replaces the best so far only when strictly nearer. */
  function TrySimilar(probe: Probe, best: (Distance, Target), sf: string): Result<(Distance, Target)>
  {
    match probe(sf)
    case Err(e) => Err(e)
    case Ok((sl, (cl, cd))) => if Nearer(cd, best.0) then Ok((cd, Target(sf, sl, cl))) else Ok(best)
  }

  /** The loop over the similar files, over the first `k` of them. */
  function SearchSimilar(probe: Probe, cands: seq<string>, start: Target, k: nat): Result<(Distance, Target)>
    requires k <= |cands|
  {
    if k == 0 then Ok((Infinite, start))
    else match SearchSimilar(probe, cands, start, k - 1)
      case Err(e) => Err(e)
      case Ok(best) => TrySimilar(probe, best, cands[k - 1])
  }

  /** The search raises exactly when reading one of the files does. */
  lemma {:induction false} SearchSimilarRaises(probe: Probe, cands: seq<string>, start: Target, n: nat)
    requires n <= |cands|
    ensures SearchSimilar(probe, cands, start, n).Ok? <==> forall k :: 0 <= k < n ==> probe(cands[k]).Ok?
    decreases n
  {
    if n > 0 {
      SearchSimilarRaises(probe, cands, start, n - 1);
    }
  }

  /** A file whose block is strictly nearer than `d`. */
  predicate Beaten(probe: Probe, cands: seq<string>, d: Distance, k: nat)
    requires k < |cands| && probe(cands[k]).Ok?
  {
    Nearer(probe(cands[k]).value.1.1, d)
  }

  /** The file kept, with the start of its most similar block. */
  predicate KeptFrom(probe: Probe, cands: seq<string>, best: (Distance, Target), k: nat)
    requires k < |cands| && probe(cands[k]).Ok?
  {
    var (sl, (cl, cd)) := probe(cands[k]).value;
    best == (cd, Target(cands[k], sl, cl))
  }

  /** The search keeps a file no other similar file is strictly nearer
      than, with the start of its most similar block; when no file has a
      finite distance the start values stay. */
  lemma {:induction false} SearchSimilarIsNearest(probe: Probe, cands: seq<string>, start: Target, n: nat)
    requires n <= |cands| && SearchSimilar(probe, cands, start, n).Ok?
    ensures forall k :: 0 <= k < n ==> probe(cands[k]).Ok?
    ensures var best := SearchSimilar(probe, cands, start, n).value;
      (forall k :: 0 <= k < n ==> !Beaten(probe, cands, best.0, k))
      && (best.0.Infinite? ==> best.1 == start)
      && (best.0.Finite? ==> exists k :: 0 <= k < n && KeptFrom(probe, cands, best, k))
    decreases n
  {
    SearchSimilarRaises(probe, cands, start, n);
    if n > 0 {
      SearchSimilarIsNearest(probe, cands, start, n - 1);
      var best := SearchSimilar(probe, cands, start, n - 1).value;
      var (sl, (cl, cd)) := probe(cands[n - 1]).value;
      if Nearer(cd, best.0) {
        forall k | 0 <= k < n - 1
          ensures !Beaten(probe, cands, cd, k)
        {
          assert !Beaten(probe, cands, best.0, k);
        }
        assert KeptFrom(probe, cands, (cd, Target(cands[n - 1], sl, cl)), n - 1);
      } else {
        assert SearchSimilar(probe, cands, start, n).value == best;
      }
    }
  }

  /** The file named by the hunk when the ref has it; otherwise the nearest
      of the five files whose names are most like it. */
  function FindTarget(files: map<string, string>, walk: seq<(string, string)>, path: string,
                      contexts: seq<string>, numContext: nat): Result<Target>
    requires numContext <= |contexts|
  {
    if path in files then
      var ls := Split(files[path], '\n');
      Ok(Target(path, ls, MostSimilarBlock(contexts, ls, numContext, false).0))
    else
      var cands := MostSimilarFiles(BaseName(path), walk);
      match SearchSimilar(ProbeOf(files, contexts, numContext), cands, Target(path, [], -1), |cands|)
      case Err(e) => Err(e)
      case Ok((_, t)) => Ok(t)
  }

  /** The patch lines after the three header lines. */
  function BodyLines(patch: string): seq<string> {
    var all := Split(patch, '\n');
    PySlice(all, 3, |all|)
  }

  /** `_apply_error_handling` on the ref's files (`files`) and the working
      tree's (name, path) list (`walk`): the snippet and the diff text. */
  function ErrorFeedback(files: map<string, string>, walk: seq<(string, string)>, ref: string, patch: string)
    : Result<(string, string)>
  {
    match HeaderPath(patch, "--- a/")
    case None => Err("IndexError")
    case Some(path) =>
      var pl := BodyLines(patch);
      var (contexts, numContext, _, _) := ExtractContext(pl);
      match FindTarget(files, walk, path, contexts, numContext)
      case Err(e) => Err(e)
      case Ok(t) =>
        match DifferOutcome(pl, t.lines, t.lineno)
        case Err(e) => Err(e)
        case Ok(d) => Ok((Block(t.path, ref, t.lines, t.lineno, numContext), d))
  }

  /** The loop over the similar files, each read through `probe`. */
  method SearchSimilarFiles(probe: Probe, cands: seq<string>, start: Target) returns (r: Result<(Distance, Target)>)
    ensures r == SearchSimilar(probe, cands, start, |cands|)
  {
    var minDistance: Distance := Infinite;
    var best := start;
    var k := 0;
    while k < |cands|
      invariant k <= |cands|
      invariant SearchSimilar(probe, cands, start, k) == Ok((minDistance, best))
    {
      assert SearchSimilar(probe, cands, start, k + 1) == TrySimilar(probe, (minDistance, best), cands[k]);
      var sf := cands[k];
      var read := probe(sf);
      if read.Err? {
        SearchErrStays(probe, cands, start, k + 1, |cands|);
        return Err(read.why);
      }
      var (sl, (cl, cd)) := read.value;
      if Nearer(cd, minDistance) {
        minDistance := cd;
        best := Target(sf, sl, cl);
      }
      k := k + 1;
    }
    r := Ok((minDistance, best));
  }

  /** Once a similar file has raised, the search stays raised. */
  lemma {:induction false} SearchErrStays(probe: Probe, cands: seq<string>, start: Target, n: nat, m: nat)
    requires n <= m <= |cands| && SearchSimilar(probe, cands, start, n).Err?
    ensures SearchSimilar(probe, cands, start, m) == SearchSimilar(probe, cands, start, n)
    decreases m - n
  {
    if n < m {
      SearchErrStays(probe, cands, start, n, m - 1);
    }
  }

  /** The snippet loop. */
  method BuildSnippet(lines: seq<string>, lo: nat, hi: int) returns (s: string)
    requires hi <= |lines|
    ensures s == SnippetLines(lines, lo, hi)
  {
    s := "";
    var i := lo;
    while i < hi
      invariant lo <= i && (i <= hi || i == lo)
      invariant s == SnippetLines(lines, lo, i)
      decreases hi - i
    {
      s := s + lines[i] + "\n";
      i := i + 1;
    }
  }

  /** The diff text, or the loop's exception. */
  function DifferOutcome(pl: seq<string>, lines: seq<string>, lineno: int): Result<string> {
    match Mismatches(pl, lines, lineno, |pl|)
    case Err(e) => Err(e)
    case Ok(ms) => Ok(DifferText(ms))
  }

  /** The fenced opening followed by the entries. */
  function Rendered(ms: seq<Mismatch>): string {
    DiffOpen + MismatchesText(ms)
  }

  /** The fenced opening followed by the entries, or the loop's exception. */
  function EntriesOutcome(pl: seq<string>, lines: seq<string>, lineno: int): Result<string> {
    match Mismatches(pl, lines, lineno, |pl|)
    case Err(e) => Err(e)
    case Ok(ms) => Ok(Rendered(ms))
  }

  /** The diff loop, with the running index `j` into the file: the fenced
      opening followed by the entries. */
  method DiffEntries(pl: seq<string>, lines: seq<string>, lineno: int) returns (r: Result<string>)
    ensures r == EntriesOutcome(pl, lines, lineno)
  {
    var differ := DiffOpen;
    ghost var ms: seq<Mismatch> := [];
    var j := 0;
    var i := 0;
    while i < |pl|
      invariant i <= |pl|
      invariant j == OldCount(pl, i)
      invariant Mismatches(pl, lines, lineno, i) == Ok(ms)
      invariant differ == Rendered(ms)
    {
      var ok;
      assert Mismatches(pl, lines, lineno, i + 1) == MismatchStep(pl, lines, lineno, ms, i);
      ok, differ, ms := DiffLine(pl, lines, lineno, i, j, ms, differ);
      if !ok {
        MismatchesErrStays(pl, lines, lineno, i + 1, |pl|);
        return Err("IndexError");
      }
      if IsOldLine(pl[i]) {
        j := j + 1;
      }
      i := i + 1;
    }
    assert Mismatches(pl, lines, lineno, |pl|) == Ok(ms);
    r := Ok(differ);
    assert r == EntriesOutcome(pl, lines, lineno);
  }

  /** One turn of the diff loop: patch line `i` compared with file line
      `lineno - 1 + j`. */
  method DiffLine(pl: seq<string>, lines: seq<string>, lineno: int, i: nat, j: int,
                  ghost ms: seq<Mismatch>, differ: string)
    returns (ok: bool, differ': string, ghost ms': seq<Mismatch>)
    requires i < |pl| && j == OldCount(pl, i)
    requires Mismatches(pl, lines, lineno, i) == Ok(ms) && differ == Rendered(ms)
    ensures ok ==> MismatchStep(pl, lines, lineno, ms, i) == Ok(ms') && differ' == Rendered(ms')
    ensures !ok ==> MismatchStep(pl, lines, lineno, ms, i) == Err("IndexError")
  {
    ok, differ', ms' := true, differ, ms;
    var context := pl[i];
    if IsOldLine(context) {
      var fileLine := PyIndex(lines, lineno - 1 + j);
      if fileLine.None? {
        return false, differ, ms;
      }
      if context[1..] != fileLine.value {
        var m := Mismatch(i + 4, context[1..], fileLine.value);
        AppendEntry(differ, ms, m);
        ms' := ms + [m];
        differ' := differ + MismatchText(m);
      }
    }
  }

  lemma AppendEntry(differ: string, ms: seq<Mismatch>, m: Mismatch)
    requires differ == Rendered(ms)
    ensures differ + MismatchText(m) == Rendered(ms + [m])
  {
    MismatchesTextSnoc(ms, m);
    ConcatAssoc(DiffOpen, MismatchesText(ms), MismatchText(m));
  }

  lemma MismatchesTextSnoc(ms: seq<Mismatch>, m: Mismatch)
    ensures MismatchesText(ms + [m]) == MismatchesText(ms) + MismatchText(m)
  {
    assert (ms + [m])[..|ms|] == ms;
  }

  lemma ConcatAssoc(a: string, b: string, c: string)
    ensures (a + b) + c == a + (b + c)
  {
  }

  /** The diff lists nothing exactly when no context or removed line
      differs from the file; then the text is the advice to keep three
      lines of context. */
  lemma NoDifferenceExactly(pl: seq<string>, lines: seq<string>, lineno: int)
    requires Mismatches(pl, lines, lineno, |pl|).Ok?
    ensures (forall k :: 0 <= k < |pl| ==> !Differs(pl, lines, lineno, k))
      <==> Mismatches(pl, lines, lineno, |pl|).value == []
  {
    MismatchesSound(pl, lines, lineno, |pl|);
    MismatchesComplete(pl, lines, lineno, |pl|);
    var ms := Mismatches(pl, lines, lineno, |pl|).value;
    if ms != [] {
      assert ms[0] in ms;
    }
  }

  /** A diff with entries is fenced: it opens with the context-diff fence
      and ends with the closing advice. */
  lemma DifferTextFenced(ms: seq<Mismatch>)
    requires ms != []
    ensures StartsWith(DifferText(ms), DiffOpen) && EndsWith(DifferText(ms), DiffClose)
  {
    var t := DiffOpen + MismatchesText(ms) + DiffClose;
    assert t == DiffOpen + (MismatchesText(ms) + DiffClose);
    assert t[..|DiffOpen|] == DiffOpen;
    assert t[|t| - |DiffClose|..] == DiffClose;
  }

  /** The diff part of `_apply_error_handling`. */
  method BuildDiffer(pl: seq<string>, lines: seq<string>, lineno: int) returns (r: Result<string>)
    ensures r == DifferOutcome(pl, lines, lineno)
  {
    var entries := DiffEntries(pl, lines, lineno);
    if entries.Err? {
      return entries;
    }
    var differ := entries.value;
    if differ == DiffOpen {
      r := Ok(NoDifference);
    } else {
      r := Ok(differ + DiffClose);
    }
  }

  /** `_apply_error_handling`. */
  method ApplyErrorHandling(files: map<string, string>, walk: seq<(string, string)>, ref: string, patch: string)
    returns (r: Result<(string, string)>)
    ensures r == ErrorFeedback(files, walk, ref, patch)
  {
    var path := HeaderPath(patch, "--- a/");
    if path.None? {
      return Err("IndexError");
    }
    var pl := BodyLines(patch);
    var (contexts, numContext, _, _) := ExtractContext(pl);
    var t: Target;
    if path.value in files {
      var ls := Split(files[path.value], '\n');
      var lineno, _ := FindMostSimilarBlock(contexts, ls, numContext, false);
      t := Target(path.value, ls, lineno);
    } else {
      var cands := MostSimilarFiles(BaseName(path.value), walk);
      var found := SearchSimilarFiles(ProbeOf(files, contexts, numContext), cands, Target(path.value, [], -1));
      if found.Err? {
        return Err(found.why);
      }
      t := found.value.1;
    }
    var (lo, hi) := SnippetBounds(t.lineno, numContext, |t.lines|);
    var snippet := BuildSnippet(t.lines, lo, hi);
    var block := "Here are lines " + IntToString(lo) + " through " + IntToString(hi) + " of file " + t.path + " for commit " + ref + ".\n"
      + "```code snippet\n" + snippet + "```\n";
    var differ := BuildDiffer(pl, t.lines, t.lineno);
    if differ.Err? {
      return Err(differ.why);
    }
    r := Ok((block, differ.value));
  }
}
