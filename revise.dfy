/** revise_patch and its helpers revise_block and revise_hunk: repairing a
    generated patch against the real files before `git apply`. Every Python
    exception on the way is an `Err`; revise_patch turns any of them into
    "the patch, unchanged, not fixed". */
module Revise {
  import opened Results
  import opened Text
  import opened PyList
  import opened Alignment
  import opened Chunks
  import opened Paths
  import opened Headers

  const NoNewline: string := "\\ No newline at end of file"

  // ----- revise_hunk -----

  /** The hunk lines once a final empty or `\ No newline at end of file` line is dropped. */
  function TrimLast(lines: seq<string>): (r: seq<string>)
    requires lines != []
    ensures r == lines || r == lines[..|lines| - 1]
  {
    var last := lines[|lines| - 1];
    if |last| == 0 || Contains(last, NoNewline) then lines[..|lines| - 1] else lines
  }

  /** A body line that starts with neither `+`, `-` nor a space becomes a context line. */
  function CoerceLine(line: string): (r: string)
    ensures IsOldLine(r) || StartsWith(r, "+")
    ensures r == line || r == " " + line
  {
    if StartsWith(line, "+") || StartsWith(line, "-") || StartsWith(line, " ") then line else " " + line
  }

  /** `tmp_lines`: the body after the `@@` line, every line coerced. */
  function HunkBody(lines: seq<string>): (r: seq<string>)
    requires lines != []
    ensures var ls := TrimLast(lines);
      ls != [] ==> |r| == |ls| - 1 && forall k :: 0 <= k < |r| ==> r[k] == CoerceLine(ls[k + 1])
  {
    var ls := TrimLast(lines);
    if ls == [] then [] else seq(|ls| - 1, k requires 0 <= k < |ls| - 1 => CoerceLine(ls[k + 1]))
  }

  /** A context or removed line against its file line: in forced mode the
      file line as context; otherwise the file line under the old sign when
      the two agree once all whitespace is deleted, else the line as it was. */
  function ReviseLine(line: string, fileLine: string, force: bool): string
    requires IsOldLine(line)
  {
    if force then " " + StripChar(fileLine, '\n')
    else if RemoveSpaces(line[1..]) == RemoveSpaces(fileLine) then [line[0]] + StripChar(fileLine, '\n')
    else line
  }

  /** An added (or any other) line: `'s ` becomes `->`. */
  function AddedLine(line: string): string {
    Replace(line, "'s ", "->")
  }

  function Prepend(xs: seq<string>, o: Option<seq<string>>): Option<seq<string>> {
    match o
    case None => None
    case Some(ys) => Some(xs + ys)
  }

  /** The per-line loop from body line 0 on, with `c` context or removed lines
      already read: that kind of line reads file line `base + c`, with
      Python's wrap-around; an index out of range raises (None). */
  function ReviseBody(body: seq<string>, fileLines: seq<string>, base: int, c: nat, force: bool): (r: Option<seq<string>>)
    ensures r.Some? ==> |r.value| == |body|
    decreases |body|
  {
    if body == [] then Some([])
    else if IsOldLine(body[0]) then
      match PyIndex(fileLines, base + c)
      case None => None
      case Some(f) => Prepend([ReviseLine(body[0], f, force)], ReviseBody(body[1..], fileLines, base, c + 1, force))
    else Prepend([AddedLine(body[0])], ReviseBody(body[1..], fileLines, base, c, force))
  }

  /** The texts of the removed lines, in order. */
  function RemovedTexts(body: seq<string>): (r: seq<string>)
    ensures |r| <= |body|
  {
    if body == [] then []
    else (if StartsWith(body[0], "-") then [body[0][1..]] else []) + RemovedTexts(body[1..])
  }

  /** The forced-mode marking loop: each removed text is looked up, as a
      one-line pattern with `dline` set, in the lines after the previous
      mark, and the line found gets `-` for its first character. Also
      returns the 1-based positions marked. */
  function MarkRemoved(revised: seq<string>, removed: seq<string>, last: nat): (r: Option<(seq<string>, seq<int>)>)
    ensures r.Some? ==> |r.value.0| == |revised| && |r.value.1| == |removed|
    decreases |removed|
  {
    if removed == [] then Some((revised, []))
    else match MarkOne(revised, removed[0], last)
      case None => None
      case Some((m, dl)) => Extend(MarkRemoved(m, removed[1..], dl), [dl])
  }

  /** One round of the marking loop: the 1-based line found for `text` among
      the lines after `last`, and the lines with that one marked; None where
      the index is out of range. */
  function MarkOne(revised: seq<string>, text: string, last: nat): (r: Option<(seq<string>, nat)>)
    ensures r.Some? ==> |r.value.0| == |revised|
  {
    var d := MostSimilarBlock([text], PySlice(revised, last, |revised|), 1, true).0;
    var dl: nat := d + last;
    match PyIndex(revised, dl - 1)
    case None => None
    case Some(l) => Some((revised[dl - 1 := Marked(l)], dl))
  }

  /** A line with `-` in place of its first character. */
  function Marked(l: string): (r: string)
    ensures StartsWith(r, "-")
  {
    "-" + PySlice(l, 1, |l|)
  }

  function Extend(o: Option<(seq<string>, seq<int>)>, pos: seq<int>): (r: Option<(seq<string>, seq<int>)>)
    ensures o.Some? <==> r.Some?
    ensures r.Some? ==> r.value.0 == o.value.0 && |r.value.1| == |pos| + |o.value.1|
  {
    match o
    case None => None
    case Some((m, p)) => Some((m, pos + p))
  }

  /** The forced-mode tail: when the last line is not a context line, the
      file line after the block is appended as one. */
  function Finish(marked: seq<string>, fileLines: seq<string>, at: int): (r: Option<seq<string>>)
    ensures r.Some? ==> |r.value| >= 1 && StartsWith(r.value[|r.value| - 1], " ")
    ensures r.Some? ==> |marked| <= |r.value| <= |marked| + 1 && r.value[..|marked|] == marked
  {
    match PyIndex(marked, -1)
    case None => None
    case Some(l) =>
      if StartsWith(l, " ") then Some(marked)
      else match PyIndex(fileLines, at)
        case None => None
        case Some(f) =>
          assert StartsWith(" " + StripChar(f, '\n'), " ");
          Some(marked + [" " + StripChar(f, '\n')])
  }

  /** `revised_lines` at the end of revise_hunk, for the coerced body. The
      block start is find_most_similar_block's for the context and removed
      lines. */
  function RevisedLines(body: seq<string>, fileLines: seq<string>, force: bool): Option<seq<string>> {
    RevisedFrom(body, fileLines, force, BlockStart(body, fileLines))
  }

  /** find_most_similar_block's start for the context and removed lines. */
  function BlockStart(body: seq<string>, fileLines: seq<string>): int {
    var contexts := OldLines(body);
    MostSimilarBlock(contexts, fileLines, |contexts|, false).0
  }

  /** `revised_lines` for a block starting at file line `lineno`. */
  function RevisedFrom(body: seq<string>, fileLines: seq<string>, force: bool, lineno: int): Option<seq<string>> {
    match ReviseBody(body, fileLines, lineno - 1, 0, force)
    case None => None
    case Some(revised) =>
      if !force then Some(revised)
      else match MarkedLines(revised, RemovedTexts(body))
        case None => None
        case Some(m) => Finish(m, fileLines, lineno - 1 + |OldLines(body)|)
  }

  /** The lines after the marking loop, without the positions. */
  function MarkedLines(revised: seq<string>, removed: seq<string>): (r: Option<seq<string>>)
    ensures r.Some? <==> MarkRemoved(revised, removed, 0).Some?
    ensures r.Some? ==> r.value == MarkRemoved(revised, removed, 0).value.0
  {
    match MarkRemoved(revised, removed, 0)
    case None => None
    case Some((m, _)) => Some(m)
  }

  /** The number of lines that do not start with `sign`. */
  function CountUnsigned(ls: seq<string>, sign: string): (r: nat)
    ensures r <= |ls|
    ensures r == |ls| <==> forall k :: 0 <= k < |ls| ==> !StartsWith(ls[k], sign)
  {
    if ls == [] then 0
    else
      var rest := CountUnsigned(ls[1..], sign);
      assert forall k :: 1 <= k < |ls| ==> ls[k] == ls[1..][k - 1];
      (if StartsWith(ls[0], sign) then 0 else 1) + rest
  }

  /** The recomputed header: start numbers copied, lengths recounted. */
  function NewHeader(h: HunkHeader, out: seq<string>): HunkHeader {
    HunkHeader(h.oldStart, NatToString(CountUnsigned(out, "+")), h.newStart, NatToString(CountUnsigned(out, "-")), h.tail)
  }

  /** revise_hunk: the repaired hunk text and whether its start numbers differ. */
  function RevisedHunk(lines: seq<string>, fileLines: seq<string>, force: bool): Result<(string, bool)> {
    if lines == [] || TrimLast(lines) == [] then Err("IndexError")
    else match RevisedLines(HunkBody(lines), fileLines, force)
      case None => Err("IndexError")
      case Some(out) =>
        match ParseHunkHeader(TrimLast(lines)[0])
        case None => Err("IndexError")
        case Some(h) => Ok((Render(NewHeader(h, out)) + "\n" + Join(out, "\n"), h.oldStart != h.newStart))
  }

  /** revise_hunk. */
  method ReviseHunk(lines: seq<string>, fileLines: seq<string>, force: bool) returns (r: Result<(string, bool)>)
    ensures r == RevisedHunk(lines, fileLines, force)
  {
    if |lines| == 0 {
      return Err("IndexError");
    }
    var ls := lines;
    var lastLine := lines[|lines| - 1];
    if |lastLine| == 0 || Contains(lastLine, NoNewline) {
      ls := lines[..|lines| - 1];
    }
    if |ls| == 0 {
      return Err("IndexError");
    }
    var tmp: seq<string> := [];
    var n := 1;
    while n < |ls|
      invariant 1 <= n <= |ls|
      invariant |tmp| == n - 1
      invariant forall t :: 0 <= t < n - 1 ==> tmp[t] == CoerceLine(ls[t + 1])
    {
      var line := ls[n];
      if StartsWith(line, "+") || StartsWith(line, "-") || StartsWith(line, " ") {
        tmp := tmp + [line];
      } else {
        tmp := tmp + [" " + line];
      }
      n := n + 1;
    }
    assert tmp == HunkBody(lines);
    var out := ReviseLines(tmp, fileLines, force);
    if out.None? {
      return Err("IndexError");
    }
    var h := ParseHunkHeader(ls[0]);
    if h.None? {
      return Err("IndexError");
    }
    var fixed := false;
    if h.value.oldStart != h.value.newStart {
      fixed := true;
    }
    r := Ok((Render(NewHeader(h.value, out.value)) + "\n" + Join(out.value, "\n"), fixed));
  }

  /** The middle of revise_hunk: locate the block, rewrite the lines, and in
      forced mode mark the removed lines and close with a context line. */
  method ReviseLines(tmp: seq<string>, fileLines: seq<string>, force: bool) returns (out: Option<seq<string>>)
    ensures out == RevisedLines(tmp, fileLines, force)
  {
    var lineno := LocateBlock(tmp, fileLines);
    out := ReviseAt(tmp, fileLines, force, lineno);
  }

  /** revise_hunk's rewriting once the block start is known. */
  method ReviseAt(tmp: seq<string>, fileLines: seq<string>, force: bool, lineno: int) returns (out: Option<seq<string>>)
    ensures out == RevisedFrom(tmp, fileLines, force, lineno)
  {
    var revised, i := RewriteLines(tmp, fileLines, lineno, force);
    if revised.None? {
      return None;
    }
    if !force {
      return revised;
    }
    var marked := MarkLines(revised.value, tmp);
    if marked.None? {
      return None;
    }
    assert RevisedFrom(tmp, fileLines, force, lineno) == Finish(marked.value, fileLines, lineno - 1 + |OldLines(tmp)|);
    out := FinishLines(marked.value, fileLines, lineno - 1 + i);
  }

  /** The block start revise_hunk computes from the context and removed lines. */
  method LocateBlock(tmp: seq<string>, fileLines: seq<string>) returns (lineno: int)
    ensures lineno == BlockStart(tmp, fileLines)
  {
    var (contexts, numContext, _, _) := ExtractContext(tmp);
    var dist;
    lineno, dist := FindMostSimilarBlock(contexts, fileLines, numContext, false);
  }

  /** The forced-mode tail of revise_hunk. */
  method FinishLines(marked: seq<string>, fileLines: seq<string>, at: int) returns (out: Option<seq<string>>)
    ensures out == Finish(marked, fileLines, at)
  {
    var last := PyIndex(marked, -1);
    if last.None? {
      return None;
    }
    if StartsWith(last.value, " ") {
      return Some(marked);
    }
    var f := PyIndex(fileLines, at);
    if f.None? {
      return None;
    }
    out := Some(marked + [" " + StripChar(f.value, '\n')]);
  }

  /** The per-line loop of revise_hunk; `i` counts the context and removed lines. */
  method RewriteLines(tmp: seq<string>, fileLines: seq<string>, lineno: int, force: bool)
    returns (revised: Option<seq<string>>, i: nat)
    ensures revised == ReviseBody(tmp, fileLines, lineno - 1, 0, force)
    ensures revised.Some? ==> i == |OldLines(tmp)|
  {
    var acc: seq<string> := [];
    i := 0;
    var k := 0;
    ghost var whole := ReviseBody(tmp, fileLines, lineno - 1, 0, force);
    assert tmp[k..] == tmp;
    PrependNothing(whole);
    while k < |tmp|
      invariant 0 <= k <= |tmp|
      invariant i == |OldLines(tmp[..k])|
      invariant whole == Prepend(acc, ReviseBody(tmp[k..], fileLines, lineno - 1, i, force))
    {
      var line := tmp[k];
      ReviseBodyStep(tmp, k, fileLines, lineno - 1, i, force);
      OldCountStep(tmp, k);
      if StartsWith(line, " ") || StartsWith(line, "-") {
        var newLine := PyIndex(fileLines, lineno - 1 + i);
        if newLine.None? {
          return None, i;
        }
        var rl := ReviseLine(line, newLine.value, force);
        PrependTwice(acc, [rl], ReviseBody(tmp[k + 1..], fileLines, lineno - 1, i + 1, force));
        acc := acc + [rl];
        i := i + 1;
      } else {
        PrependTwice(acc, [AddedLine(line)], ReviseBody(tmp[k + 1..], fileLines, lineno - 1, i, force));
        acc := acc + [AddedLine(line)];
      }
      k := k + 1;
    }
    assert tmp[..k] == tmp;
    assert acc + [] == acc;
    revised := Some(acc);
  }

  /** One more body line adds one old line exactly when it is a context or removed line. */
  lemma OldCountStep(body: seq<string>, k: nat)
    requires k < |body|
    ensures |OldLines(body[..k + 1])| == |OldLines(body[..k])| + (if IsOldLine(body[k]) then 1 else 0)
  {
    assert body[..k + 1] == body[..k] + [body[k]];
    OldAndAddedConcat(body[..k], [body[k]]);
    assert [body[k]][1..] == [];
  }

  /** One step of the per-line loop. */
  lemma ReviseBodyStep(body: seq<string>, k: nat, fileLines: seq<string>, base: int, c: nat, force: bool)
    requires k < |body|
    ensures ReviseBody(body[k..], fileLines, base, c, force) ==
      if IsOldLine(body[k]) then
        match PyIndex(fileLines, base + c)
        case None => None
        case Some(f) => Prepend([ReviseLine(body[k], f, force)], ReviseBody(body[k + 1..], fileLines, base, c + 1, force))
      else Prepend([AddedLine(body[k])], ReviseBody(body[k + 1..], fileLines, base, c, force))
  {
    assert body[k..][1..] == body[k + 1..];
  }

  lemma PrependNothing(o: Option<seq<string>>)
    ensures Prepend([], o) == o
  {
    if o.Some? {
      assert [] + o.value == o.value;
    }
  }

  lemma PrependTwice(xs: seq<string>, ys: seq<string>, o: Option<seq<string>>)
    ensures Prepend(xs, Prepend(ys, o)) == Prepend(xs + ys, o)
  {
    if o.Some? {
      assert xs + (ys + o.value) == (xs + ys) + o.value;
    }
  }

  lemma ExtendNothing(o: Option<(seq<string>, seq<int>)>)
    ensures Extend(o, []) == o
  {
    if o.Some? {
      assert [] + o.value.1 == o.value.1;
    }
  }

  /** The removed texts from body line `k` on. */
  lemma RemovedTextsStep(body: seq<string>, k: nat)
    requires k < |body|
    ensures !StartsWith(body[k], "-") ==> RemovedTexts(body[k..]) == RemovedTexts(body[k + 1..])
    ensures StartsWith(body[k], "-") ==>
      RemovedTexts(body[k..]) != [] && RemovedTexts(body[k..])[0] == body[k][1..] && RemovedTexts(body[k..])[1..] == RemovedTexts(body[k + 1..])
  {
    assert body[k..][1..] == body[k + 1..];
    if !StartsWith(body[k], "-") {
      assert [] + RemovedTexts(body[k + 1..]) == RemovedTexts(body[k + 1..]);
    }
  }

  /** One round of the marking loop of revise_hunk. */
  method MarkNext(m: seq<string>, text: string, last: nat) returns (r: Option<(seq<string>, nat)>)
    ensures r == MarkOne(m, text, last)
  {
    var dlineno, _ := FindMostSimilarBlock([text], PySlice(m, last, |m|), 1, true);
    var dl: nat := dlineno + last;
    var cur := PyIndex(m, dl - 1);
    if cur.None? {
      return None;
    }
    r := Some((m[dl - 1 := "-" + PySlice(cur.value, 1, |cur.value|)], dl));
    assert r.value.0 == m[dl - 1 := Marked(cur.value)];
  }

  /** Unfolding the marking loop by one found line. */
  lemma MarkRemovedCons(m: seq<string>, removed: seq<string>, last: nat, m': seq<string>, dl: nat)
    requires removed != [] && MarkOne(m, removed[0], last) == Some((m', dl))
    ensures MarkRemoved(m, removed, last) == Extend(MarkRemoved(m', removed[1..], dl), [dl])
  {
  }

  lemma ExtendTwice(o: Option<(seq<string>, seq<int>)>, p: seq<int>, q: seq<int>)
    ensures Extend(Extend(o, p), q) == Extend(o, q + p)
  {
    if o.Some? {
      assert q + (p + o.value.1) == (q + p) + o.value.1;
    }
  }

  /** The forced-mode marking loop of revise_hunk. */
  method MarkLines(revised: seq<string>, tmp: seq<string>) returns (marked: Option<seq<string>>)
    ensures marked == MarkedLines(revised, RemovedTexts(tmp))
  {
    var m := revised;
    var last: nat := 0;
    ghost var pos: seq<int> := [];
    ghost var whole := MarkRemoved(revised, RemovedTexts(tmp), 0);
    var k := 0;
    assert tmp[k..] == tmp;
    ExtendNothing(whole);
    while k < |tmp|
      invariant 0 <= k <= |tmp|
      invariant whole == Extend(MarkRemoved(m, RemovedTexts(tmp[k..]), last), pos)
    {
      var line := tmp[k];
      RemovedTextsStep(tmp, k);
      if StartsWith(line, "-") {
        var next := MarkNext(m, line[1..], last);
        if next.None? {
          return None;
        }
        ghost var rest := MarkRemoved(next.value.0, RemovedTexts(tmp[k + 1..]), next.value.1);
        MarkRemovedCons(m, RemovedTexts(tmp[k..]), last, next.value.0, next.value.1);
        ExtendTwice(rest, [next.value.1], pos);
        m, last := next.value.0, next.value.1;
        pos := pos + [last];
      }
      k := k + 1;
    }
    assert tmp[k..] == [];
    marked := Some(m);
  }

  // ----- what revise_hunk promises -----

  /** The number of context and removed lines in the first `k` body lines
      counts the first line and then the rest. */
  lemma OldBeforeShift(body: seq<string>, k: nat)
    requires 1 <= k <= |body|
    ensures |OldLines(body[..k])| == (if IsOldLine(body[0]) then 1 else 0) + |OldLines(body[1..][..k - 1])|
  {
    assert body[..k] == [body[0]] + body[1..][..k - 1];
    OldLinesConcat([body[0]], body[1..][..k - 1]);
    assert [body[0]][1..] == [];
  }

  /** The per-line loop unfolded by one line. */
  lemma ReviseBodyHead(body: seq<string>, fileLines: seq<string>, base: int, c: nat, force: bool, c': nat)
    requires body != [] && c' == c + (if IsOldLine(body[0]) then 1 else 0)
    ensures var r, t := ReviseBody(body, fileLines, base, c, force), ReviseBody(body[1..], fileLines, base, c', force);
      (r.Some? <==> (IsOldLine(body[0]) ==> PyIndex(fileLines, base + c).Some?) && t.Some?)
      && (r.Some? ==> r.value == [if IsOldLine(body[0]) then ReviseLine(body[0], PyIndex(fileLines, base + c).value, force) else AddedLine(body[0])] + t.value)
  {
  }

  /** The file line body line `k` reads when it is a context or removed
      line: the one after those the earlier such lines read. */
  function FileIndex(body: seq<string>, base: int, c: nat, k: nat): int
    requires k <= |body|
  {
    base + c + |OldLines(body[..k])|
  }

  lemma FileIndexShift(body: seq<string>, base: int, c: nat, c': nat, k: nat)
    requires 1 <= k <= |body| && c' == c + (if IsOldLine(body[0]) then 1 else 0)
    ensures FileIndex(body, base, c, k) == FileIndex(body[1..], base, c', k - 1)
  {
    OldBeforeShift(body, k);
  }

  /** The per-line loop fails exactly when the file line some context or
      removed line reads is out of range. */
  lemma {:induction false} ReviseBodyDefined(body: seq<string>, fileLines: seq<string>, base: int, c: nat, force: bool)
    ensures ReviseBody(body, fileLines, base, c, force).Some? <==>
      forall k :: 0 <= k < |body| && IsOldLine(body[k]) ==> PyIndex(fileLines, FileIndex(body, base, c, k)).Some?
    decreases |body|
  {
    if body != [] {
      var c' := c + if IsOldLine(body[0]) then 1 else 0;
      ReviseBodyHead(body, fileLines, base, c, force, c');
      ReviseBodyDefined(body[1..], fileLines, base, c', force);
      assert body[..0] == [];
      forall k | 1 <= k < |body|
        ensures body[1..][k - 1] == body[k]
        ensures FileIndex(body, base, c, k) == FileIndex(body[1..], base, c', k - 1)
      {
        FileIndexShift(body, base, c, c', k);
      }
    }
  }

  /** Body line `k` as the per-line loop rewrites it into `rv[k]`: when it
      is a context or removed line, against the file line at `FileIndex`;
      otherwise only by the `'s ` replacement. */
  ghost predicate LineRevised(body: seq<string>, fileLines: seq<string>, base: int, c: nat, force: bool, rv: seq<string>, k: nat)
    requires k < |body| && k < |rv|
  {
    if IsOldLine(body[k]) then
      var f := PyIndex(fileLines, FileIndex(body, base, c, k));
      f.Some? && rv[k] == ReviseLine(body[k], f.value, force)
    else rv[k] == AddedLine(body[k])
  }

  /** Each body line gives exactly one output line, in order. */
  lemma {:induction false} ReviseBodyLines(body: seq<string>, fileLines: seq<string>, base: int, c: nat, force: bool)
    ensures var r := ReviseBody(body, fileLines, base, c, force);
      r.Some? ==> forall k :: 0 <= k < |body| ==> LineRevised(body, fileLines, base, c, force, r.value, k)
    decreases |body|
  {
    var r := ReviseBody(body, fileLines, base, c, force);
    if body != [] && r.Some? {
      var c' := c + if IsOldLine(body[0]) then 1 else 0;
      ReviseBodyHead(body, fileLines, base, c, force, c');
      var t := ReviseBody(body[1..], fileLines, base, c', force);
      ReviseBodyLines(body[1..], fileLines, base, c', force);
      assert body[..0] == [];
      assert LineRevised(body, fileLines, base, c, force, r.value, 0);
      forall k | 1 <= k < |body|
        ensures LineRevised(body, fileLines, base, c, force, r.value, k)
      {
        ShiftRevised(body, fileLines, base, c, c', force, r.value, t.value, k);
      }
    }
  }

  lemma ShiftRevised(body: seq<string>, fileLines: seq<string>, base: int, c: nat, c': nat, force: bool, rv: seq<string>, tv: seq<string>, k: nat)
    requires 1 <= k < |body| && c' == c + (if IsOldLine(body[0]) then 1 else 0)
    requires |rv| == |body| && |tv| == |body| - 1 && rv[1..] == tv
    requires LineRevised(body[1..], fileLines, base, c', force, tv, k - 1)
    ensures LineRevised(body, fileLines, base, c, force, rv, k)
  {
    FileIndexShift(body, base, c, c', k);
    assert body[1..][k - 1] == body[k];
    assert rv[k] == tv[k - 1];
  }

  /** Whitespace mode changes nothing but whitespace: the sign stays, the
      text is the line's own or the file line's, and once all whitespace is
      deleted it is the same as before. The file line is taken exactly when
      the two agree without whitespace. */
  lemma WhitespaceRevisionKeepsText(line: string, fileLine: string)
    requires IsOldLine(line)
    ensures var r := ReviseLine(line, fileLine, false);
      r != [] && r[0] == line[0] && RemoveSpaces(r[1..]) == RemoveSpaces(line[1..])
      && (RemoveSpaces(line[1..]) == RemoveSpaces(fileLine) ==> r[1..] == StripChar(fileLine, '\n'))
      && (RemoveSpaces(line[1..]) != RemoveSpaces(fileLine) ==> r == line)
  {
    RemoveSpacesOfStripNewline(fileLine);
    var r := ReviseLine(line, fileLine, false);
    if RemoveSpaces(line[1..]) == RemoveSpaces(fileLine) {
      assert r[1..] == StripChar(fileLine, '\n');
    }
  }

  /** Forced mode makes a context line of the file line, equal to it once
      whitespace is deleted. */
  lemma ForcedRevisionIsContext(line: string, fileLine: string)
    requires IsOldLine(line)
    ensures var r := ReviseLine(line, fileLine, true);
      StartsWith(r, " ") && RemoveSpaces(r[1..]) == RemoveSpaces(fileLine)
  {
    RemoveSpacesOfStripNewline(fileLine);
    assert ReviseLine(line, fileLine, true)[1..] == StripChar(fileLine, '\n');
  }

  /** An added line without `'s ` is kept as it is. */
  lemma AddedLineWithoutPattern(line: string)
    requires !Contains(line, "'s ")
    ensures AddedLine(line) == line
  {
    ReplaceAbsent(line, "'s ", "->");
  }

  /** `m` is `revised` with the line at each 1-based position in `p` marked;
      the positions increase strictly and lie after line `last`. */
  ghost predicate MarkedAt(revised: seq<string>, m: seq<string>, p: seq<int>, last: nat) {
    |m| == |revised| && InRange(p, last, |revised|) && Increasing(p) && MarksAt(revised, m, p) && KeepsOthers(revised, m, p)
  }

  ghost predicate InRange(p: seq<int>, lo: int, hi: int) {
    forall i :: 0 <= i < |p| ==> lo < p[i] <= hi
  }

  ghost predicate Increasing(p: seq<int>) {
    forall i :: 0 < i < |p| ==> p[i - 1] < p[i]
  }

  /** The line at each position in `p` is the marked line of `revised`. */
  ghost predicate MarksAt(revised: seq<string>, m: seq<string>, p: seq<int>) {
    forall i :: 0 <= i < |p| && 0 < p[i] <= |revised| && p[i] <= |m| ==> m[p[i] - 1] == Marked(revised[p[i] - 1])
  }

  /** Every line at no position in `p` is as in `revised`. */
  ghost predicate KeepsOthers(revised: seq<string>, m: seq<string>, p: seq<int>) {
    forall k :: 0 <= k < |revised| && k < |m| && k + 1 !in p ==> m[k] == revised[k]
  }

  /** One round marks one line after `last`, and changes no other line. */
  lemma MarkOneSpec(revised: seq<string>, text: string, last: nat)
    ensures var r := MarkOne(revised, text, last);
      r.Some? ==> last < r.value.1 <= |revised| && r.value.0 == revised[r.value.1 - 1 := Marked(revised[r.value.1 - 1])]
  {
  }

  /** Marking one line after `last` in front of later marks. */
  lemma MarkedAtCons(revised: seq<string>, m1: seq<string>, dl: nat, m: seq<string>, q: seq<int>, last: nat)
    requires last < dl <= |revised| && m1 == revised[dl - 1 := Marked(revised[dl - 1])]
    requires MarkedAt(m1, m, q, dl)
    ensures MarkedAt(revised, m, [dl] + q, last)
  {
    InRangeCons(dl, q, last, |revised|);
    IncreasingCons(dl, q, |revised|);
    MarksAtCons(revised, m1, dl, m, q);
    KeepsOthersCons(revised, m1, dl, m, q);
  }

  lemma InRangeCons(dl: int, q: seq<int>, last: int, n: int)
    requires last < dl <= n && InRange(q, dl, n)
    ensures InRange([dl] + q, last, n)
  {
    var p := [dl] + q;
    forall i | 0 <= i < |p| ensures last < p[i] <= n {
      if i > 0 {
        assert p[i] == q[i - 1];
      }
    }
  }

  lemma IncreasingCons(dl: int, q: seq<int>, n: int)
    requires InRange(q, dl, n) && Increasing(q)
    ensures Increasing([dl] + q)
  {
    var p := [dl] + q;
    forall i | 0 < i < |p| ensures p[i - 1] < p[i] {
      assert p[i] == q[i - 1];
      if i > 1 {
        assert p[i - 1] == q[i - 2];
      }
    }
  }

  lemma MarksAtCons(revised: seq<string>, m1: seq<string>, dl: nat, m: seq<string>, q: seq<int>)
    requires 0 < dl <= |revised| && m1 == revised[dl - 1 := Marked(revised[dl - 1])] && |m| == |revised|
    requires InRange(q, dl, |revised|) && MarksAt(m1, m, q) && KeepsOthers(m1, m, q)
    ensures MarksAt(revised, m, [dl] + q)
  {
    var p := [dl] + q;
    forall i | 0 <= i < |p| && 0 < p[i] <= |revised| && p[i] <= |m|
      ensures m[p[i] - 1] == Marked(revised[p[i] - 1])
    {
      if i == 0 {
        assert dl !in q by {
          forall i' | 0 <= i' < |q| ensures q[i'] != dl { }
        }
        assert m[dl - 1] == m1[dl - 1];
      } else {
        assert p[i] == q[i - 1];
        assert m1[p[i] - 1] == revised[p[i] - 1];
      }
    }
  }

  lemma KeepsOthersCons(revised: seq<string>, m1: seq<string>, dl: nat, m: seq<string>, q: seq<int>)
    requires 0 < dl <= |revised| && m1 == revised[dl - 1 := Marked(revised[dl - 1])]
    requires KeepsOthers(m1, m, q)
    ensures KeepsOthers(revised, m, [dl] + q)
  {
    var p := [dl] + q;
    forall k | 0 <= k < |revised| && k < |m| && k + 1 !in p
      ensures m[k] == revised[k]
    {
      assert k + 1 !in q && k != dl - 1;
      assert m[k] == m1[k];
    }
  }

  /** The marking loop marks one line per removed text, at strictly
      increasing positions after `last`, and leaves every other line alone. */
  lemma {:induction false} MarkRemovedSpec(revised: seq<string>, removed: seq<string>, last: nat)
    ensures var r := MarkRemoved(revised, removed, last);
      r.Some? ==> |r.value.1| == |removed| && MarkedAt(revised, r.value.0, r.value.1, last)
    decreases |removed|
  {
    if removed != [] {
      MarkOneSpec(revised, removed[0], last);
      var one := MarkOne(revised, removed[0], last);
      if one.Some? {
        var m1, dl := one.value.0, one.value.1;
        MarkRemovedCons(revised, removed, last, m1, dl);
        MarkRemovedSpec(m1, removed[1..], dl);
        var o := MarkRemoved(m1, removed[1..], dl);
        if o.Some? {
          MarkedAtCons(revised, m1, dl, o.value.0, o.value.1, last);
        }
      }
    }
  }

  /** Forced mode: the lines of the per-line loop, re-marked once per removed
      line at strictly increasing positions, then at most one more line; the
      hunk always ends with a context line. */
  lemma ForcedModeLines(body: seq<string>, fileLines: seq<string>, lineno: int)
    ensures var r := RevisedFrom(body, fileLines, true, lineno);
      var rb := ReviseBody(body, fileLines, lineno - 1, 0, true);
      r.Some? ==>
        rb.Some? && |body| <= |r.value| <= |body| + 1 && StartsWith(r.value[|r.value| - 1], " ")
        && exists p :: |p| == |RemovedTexts(body)| && MarkedAt(rb.value, r.value[..|body|], p, 0)
  {
    var r := RevisedFrom(body, fileLines, true, lineno);
    var rb := ReviseBody(body, fileLines, lineno - 1, 0, true);
    if r.Some? {
      ForcedIsFinish(body, fileLines, lineno);
      FinishMarked(rb.value, RemovedTexts(body), fileLines, lineno - 1 + |OldLines(body)|);
    }
  }

  /** The marked lines, finished: the marking spec on the prefix. */
  lemma FinishMarked(revised: seq<string>, removed: seq<string>, fileLines: seq<string>, at: int)
    ensures var mr := MarkRemoved(revised, removed, 0);
      mr.Some? && Finish(mr.value.0, fileLines, at).Some? ==>
        var r := Finish(mr.value.0, fileLines, at).value;
        exists p :: |p| == |removed| && MarkedAt(revised, r[..|revised|], p, 0)
  {
    var mr := MarkRemoved(revised, removed, 0);
    MarkRemovedSpec(revised, removed, 0);
    if mr.Some? && Finish(mr.value.0, fileLines, at).Some? {
      var r := Finish(mr.value.0, fileLines, at).value;
      assert r[..|revised|] == mr.value.0;
      assert MarkedAt(revised, r[..|revised|], mr.value.1, 0);
    }
  }

  /** In forced mode the result is the marked lines, finished. */
  lemma ForcedIsFinish(body: seq<string>, fileLines: seq<string>, lineno: int)
    ensures var r := RevisedFrom(body, fileLines, true, lineno);
      var rb := ReviseBody(body, fileLines, lineno - 1, 0, true);
      r.Some? ==>
        rb.Some? && MarkRemoved(rb.value, RemovedTexts(body), 0).Some?
        && r == Finish(MarkRemoved(rb.value, RemovedTexts(body), 0).value.0, fileLines, lineno - 1 + |OldLines(body)|)
  {
    var rb := ReviseBody(body, fileLines, lineno - 1, 0, true);
    if rb.Some? {
      var ml := MarkedLines(rb.value, RemovedTexts(body));
      assert RevisedFrom(body, fileLines, true, lineno)
        == if ml.None? then None else Finish(ml.value, fileLines, lineno - 1 + |OldLines(body)|);
    }
  }

  /** The rewritten header reads back with the input's start numbers and
      tail, the old count of lines not starting with `+` and the new count of
      lines not starting with `-`; the hunk is reported fixed exactly when
      the two start numbers differ. */
  lemma HunkHeaderReadsBack(lines: seq<string>, fileLines: seq<string>, force: bool)
    requires lines != [] && TrimLast(lines) != []
    ensures var r := RevisedHunk(lines, fileLines, force);
      r.Ok? ==>
        var h := ParseHunkHeader(TrimLast(lines)[0]);
        var out := RevisedLines(HunkBody(lines), fileLines, force);
        var g := ParseHunkHeader(r.value.0);
        h.Some? && out.Some? && g.Some?
        && g.value.oldStart == h.value.oldStart && g.value.newStart == h.value.newStart && g.value.tail == h.value.tail
        && ParseInt(g.value.oldLen) == Some(CountUnsigned(out.value, "+"))
        && ParseInt(g.value.newLen) == Some(CountUnsigned(out.value, "-"))
        && r.value.1 == (h.value.oldStart != h.value.newStart)
  {
    var r := RevisedHunk(lines, fileLines, force);
    if r.Ok? {
      var h := ParseHunkHeader(TrimLast(lines)[0]).value;
      var out := RevisedLines(HunkBody(lines), fileLines, force).value;
      MatchFromWellFormed(TrimLast(lines)[0], 0);
      var nh := NewHeader(h, out);
      assert WellFormed(nh);
      MatchAtRenderThen(nh, Join(out, "\n"));
      assert r.value.0 == Render(nh) + "\n" + Join(out, "\n");
      ParseIntOfNatToString(CountUnsigned(out, "+"));
      ParseIntOfNatToString(CountUnsigned(out, "-"));
    }
  }
}
