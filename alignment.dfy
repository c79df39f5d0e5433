/** Fuzzy alignment of hunk lines against the lines of the real file: the
    sliding-window search with its offset refinement, the ranking of
    candidate files by name, and the split of a hunk body into the lines the
    file must contain and the lines the hunk adds. */
module Alignment {
  import opened Results
  import opened Text
  import opened PyList
  import opened EditDistance

  /** A distance, or Python's `float("inf")` before any window was taken. */
  datatype Distance = Finite(n: nat) | Infinite

  /** `d < min_distance`. */
  predicate Below(d: nat, m: Distance) {
    m.Infinite? || d < m.n
  }

  /** The one-line window filter: with `dline` set, a window whose first line
      is an added or removed line is never taken. */
  predicate SignedLine(line: string) {
    StartsWith(line, "+") || StartsWith(line, "-")
  }

  /** The window of `pLen` lines starting at index `w` fits in `main` and may be chosen. */
  predicate Candidate(main: seq<string>, pLen: nat, dline: bool, w: int) {
    0 <= w && w + pLen <= |main| && !(dline && w < |main| && SignedLine(main[w]))
  }

  /** The window's lines joined by newlines, against the whole pattern joined the same way. */
  function WindowDistance(pattern: seq<string>, main: seq<string>, pLen: nat, w: nat): nat
    requires w + pLen <= |main|
  {
    Lev(Join(main[w..w + pLen], "\n"), Join(pattern, "\n"))
  }

  /** The number of windows of `pLen` lines that fit in `main`. */
  function WindowCount(main: seq<string>, pLen: nat): nat {
    if pLen <= |main| then |main| - pLen + 1 else 0
  }

  /** The distance of every window that fits, by start index. */
  function Scores(pattern: seq<string>, main: seq<string>, pLen: nat): (r: seq<nat>)
    ensures |r| == WindowCount(main, pLen)
    ensures forall w :: 0 <= w < |r| ==> r[w] == WindowDistance(pattern, main, pLen, w)
  {
    seq(WindowCount(main, pLen), w requires 0 <= w < WindowCount(main, pLen) => WindowDistance(pattern, main, pLen, w))
  }

  /** `f` at `0 .. n - 1`. */
  function Row(f: nat -> nat, n: nat): (r: seq<nat>)
    ensures |r| == n
    ensures forall w :: 0 <= w < n ==> r[w] == f(w)
  {
    seq(n, w requires 0 <= w < n => f(w))
  }

  /** Which windows may be chosen, by start index. */
  function Eligible(main: seq<string>, pLen: nat, dline: bool): (r: seq<bool>)
    ensures |r| == WindowCount(main, pLen)
    ensures forall w :: 0 <= w < |r| ==> r[w] == Candidate(main, pLen, dline, w)
    ensures forall w :: Candidate(main, pLen, dline, w) ==> w < |r|
  {
    seq(WindowCount(main, pLen), w requires 0 <= w < WindowCount(main, pLen) => Candidate(main, pLen, dline, w))
  }

  /** `w` is the earliest allowed index of least score. */
  predicate EarliestMinimum(ds: seq<nat>, ok: seq<bool>, w: int)
    requires |ds| == |ok|
  {
    0 <= w < |ds| && ok[w]
    && (forall v :: 0 <= v < |ds| && ok[v] ==> ds[w] <= ds[v])
    && (forall v :: 0 <= v < w && ok[v] ==> ds[v] > ds[w])
  }

  /** Window `w` is the earliest candidate window of least distance. */
  predicate IsBest(pattern: seq<string>, main: seq<string>, pLen: nat, dline: bool, w: int) {
    EarliestMinimum(Scores(pattern, main, pLen), Eligible(main, pLen, dline), w)
  }

  /** The window loop of find_most_similar_block as a fold over the first
      `i` windows: the 1-based start kept so far and its distance; a later
      window replaces the kept one only when it is allowed and strictly
      closer. */
  function ScanFold(ds: seq<nat>, ok: seq<bool>, i: nat): (r: (int, Distance))
    requires |ds| == |ok| && i <= |ds|
    ensures 1 <= r.0
  {
    if i == 0 then (1, Infinite)
    else
      var (b, d) := ScanFold(ds, ok, i - 1);
      if ok[i - 1] && Below(ds[i - 1], d) then (i, Finite(ds[i - 1])) else (b, d)
  }

  /** The fold keeps the earliest allowed index of least score among the
      first `i`, or 1 with an infinite distance when none of them is allowed. */
  lemma {:induction false} ScanFoldIsEarliestMinimum(ds: seq<nat>, ok: seq<bool>, i: nat)
    requires |ds| == |ok| && i <= |ds|
    ensures ScanFold(ds, ok, i).1.Infinite? <==> forall v :: 0 <= v < i ==> !ok[v]
    ensures ScanFold(ds, ok, i).1.Infinite? ==> ScanFold(ds, ok, i).0 == 1
    ensures var r := ScanFold(ds, ok, i);
      r.1.Finite? ==>
        1 <= r.0 <= i && ok[r.0 - 1] && r.1.n == ds[r.0 - 1]
        && (forall v :: 0 <= v < i && ok[v] ==> r.1.n <= ds[v])
        && (forall v :: 0 <= v < r.0 - 1 && ok[v] ==> ds[v] > r.1.n)
  {
    if i > 0 {
      ScanFoldIsEarliestMinimum(ds, ok, i - 1);
    }
  }

  /** The whole fold, in terms of the earliest minimum. */
  lemma ScanFoldFinds(ds: seq<nat>, ok: seq<bool>)
    requires |ds| == |ok|
    ensures var r := ScanFold(ds, ok, |ds|);
      (r.1.Infinite? <==> forall v :: 0 <= v < |ok| ==> !ok[v])
      && (r.1.Infinite? ==> r.0 == 1)
      && (r.1.Finite? ==> EarliestMinimum(ds, ok, r.0 - 1) && r.1.n == ds[r.0 - 1])
  {
    ScanFoldIsEarliestMinimum(ds, ok, |ds|);
  }

  function Abs(x: int): nat {
    if x < 0 then -x else x
  }

  /** Pattern line `i`, stripped, equals the stripped line at `lineno - 1 + j`
      of `main`, read with Python's wrap-around; a position out of range
      raises, and the refinement ignores it. */
  predicate LineMatch(pattern: seq<string>, main: seq<string>, lineno: int, i: nat, j: int)
    requires i < |pattern|
  {
    var l := PyIndex(main, lineno - 1 + j);
    l.Some? && Strip(pattern[i]) == Strip(l.value)
  }

  /** Which of `j = -5 .. 5` match pattern line `i`: entry `t` is for `j = t - 5`. */
  function MatchRow(pattern: seq<string>, main: seq<string>, lineno: int, i: nat): (r: seq<bool>)
    requires i < |pattern|
    ensures |r| == 11
    ensures forall t :: 0 <= t < 11 ==> r[t] == LineMatch(pattern, main, lineno, i, t - 5)
  {
    seq(11, t requires 0 <= t < 11 => LineMatch(pattern, main, lineno, i, t - 5))
  }

  /** The offset `j - i` kept after trying `j = -5 .. jEnd - 1` against the
      row of matches: a later `j` replaces it only when strictly closer to
      `i`; None while nothing matched (Python keeps `inf` then). */
  function OffsetScan(row: seq<bool>, i: nat, jEnd: int): Option<int>
    requires |row| == 11 && -5 <= jEnd <= 6
    decreases jEnd + 5
  {
    if jEnd == -5 then None
    else
      var prev := OffsetScan(row, i, jEnd - 1);
      var j := jEnd - 1;
      if row[j + 5] && (prev.None? || Abs(j - i) < Abs(prev.value))
      then Some(j - i) else prev
  }

  /** The offset line `i` proposes after the whole scan over `j`. */
  function LineOffset(pattern: seq<string>, main: seq<string>, lineno: int, i: nat): Option<int>
    requires i < |pattern|
  {
    OffsetScan(MatchRow(pattern, main, lineno, i), i, 6)
  }

  /** Which of the first `pLen` pattern lines are long enough to anchor on:
      at least three characters after stripping. */
  function LongLines(pattern: seq<string>, pLen: nat): (r: seq<bool>)
    requires pLen <= |pattern|
    ensures |r| == pLen
    ensures forall i :: 0 <= i < pLen ==> r[i] == (|Strip(pattern[i])| >= 3)
  {
    seq(pLen, i requires 0 <= i < pLen => |Strip(pattern[i])| >= 3)
  }

  /** The offset each of the first `pLen` pattern lines proposes. */
  function LineOffsets(pattern: seq<string>, main: seq<string>, lineno: int, pLen: nat): (r: seq<Option<int>>)
    requires pLen <= |pattern|
    ensures |r| == pLen
    ensures forall i :: 0 <= i < pLen ==> r[i] == LineOffset(pattern, main, lineno, i)
  {
    seq(pLen, i requires 0 <= i < pLen => LineOffset(pattern, main, lineno, i))
  }

  /** Line `i` anchors the refinement: it is long and proposes an offset. */
  predicate Anchor(long: seq<bool>, offs: seq<Option<int>>, i: int)
    requires |long| == |offs|
  {
    0 <= i < |long| && long[i] && offs[i].Some?
  }

  /** The shift the refinement applies when it tries lines `i ..` in order:
      a short line is skipped, the first line proposing an offset decides. */
  function Shift(long: seq<bool>, offs: seq<Option<int>>, i: nat): int
    requires |long| == |offs| && i <= |long|
    decreases |long| - i
  {
    if i == |long| then 0
    else if !long[i] then Shift(long, offs, i + 1)
    else match offs[i]
      case Some(o) => o
      case None => Shift(long, offs, i + 1)
  }

  /** The refinement of find_most_similar_block for a window at 1-based `lineno`. */
  function Refinement(pattern: seq<string>, main: seq<string>, lineno: int, pLen: nat): int
    requires pLen <= |pattern|
  {
    Shift(LongLines(pattern, pLen), LineOffsets(pattern, main, lineno, pLen), 0)
  }

  /** What find_most_similar_block returns: the 1-based start of the
      earliest window of least edit distance, shifted (unless `dline`) by the
      refinement of that start; with no window that fits, the start is 1
      before the refinement and the distance is infinite. */
  ghost predicate BlockResult(pattern: seq<string>, main: seq<string>, pLen: nat, dline: bool, start: int, dist: Distance)
    requires !dline ==> pLen <= |pattern|
  {
    (dist.Infinite? <==> forall w :: !Candidate(main, pLen, dline, w))
    && (dist.Finite? ==>
          exists w :: IsBest(pattern, main, pLen, dline, w)
            && dist.n == WindowDistance(pattern, main, pLen, w)
            && start == w + 1 + (if dline then 0 else Refinement(pattern, main, w + 1, pLen)))
    && (dist.Infinite? ==> start == 1 + (if dline then 0 else Refinement(pattern, main, 1, pLen)))
  }

  /** find_most_similar_block as a value: the window fold, then (unless
      `dline`) the offset refinement of the start it keeps. */
  function MostSimilarBlock(pattern: seq<string>, main: seq<string>, pLen: nat, dline: bool): (r: (int, Distance))
    requires !dline ==> pLen <= |pattern|
    ensures dline ==> r.0 >= 1
  {
    Refined(pattern, main, pLen, dline, ScanFold(Scores(pattern, main, pLen), Eligible(main, pLen, dline), WindowCount(main, pLen)))
  }

  /** The kept window start `f.0`, refined unless `dline`, with its distance. */
  function Refined(pattern: seq<string>, main: seq<string>, pLen: nat, dline: bool, f: (int, Distance)): (int, Distance)
    requires !dline ==> pLen <= |pattern|
  {
    (if dline then f.0 else f.0 + Refinement(pattern, main, f.0, pLen), f.1)
  }

  /** The value satisfies the declarative description of the result. */
  lemma MostSimilarBlockMeetsResult(pattern: seq<string>, main: seq<string>, pLen: nat, dline: bool)
    requires dline ==> pLen >= 1
    requires !dline ==> pLen <= |pattern|
    ensures BlockResult(pattern, main, pLen, dline, MostSimilarBlock(pattern, main, pLen, dline).0,
                        MostSimilarBlock(pattern, main, pLen, dline).1)
  {
    var ds, ok, n := Scores(pattern, main, pLen), Eligible(main, pLen, dline), WindowCount(main, pLen);
    ScanFoldFinds(ds, ok);
  }

  /** find_most_similar_block; `Distance.Infinite` is Python's `inf`. */
  method FindMostSimilarBlock(pattern: seq<string>, main: seq<string>, pLen: nat, dline: bool)
    returns (start: int, dist: Distance)
    requires dline ==> pLen >= 1
    requires !dline ==> pLen <= |pattern|
    ensures (start, dist) == MostSimilarBlock(pattern, main, pLen, dline)
  {
    var best;
    var score: nat -> nat := (w: nat) => if w + pLen <= |main| then WindowDistance(pattern, main, pLen, w) else 0;
    best, dist := ScanWindows(main, pLen, dline, score);
    assert Row(score, WindowCount(main, pLen)) == Scores(pattern, main, pLen);
    start := best;
    if !dline {
      start := RefineStart(pattern, main, best, pLen);
    }
  }

  /** The window loop of find_most_similar_block, for any window distance
      `score`: it computes the fold over all windows that fit. */
  method ScanWindows(main: seq<string>, pLen: nat, dline: bool, score: nat -> nat)
    returns (best: int, dist: Distance)
    requires dline ==> pLen >= 1
    ensures (best, dist) == ScanFold(Row(score, WindowCount(main, pLen)), Eligible(main, pLen, dline), WindowCount(main, pLen))
  {
    ghost var ds, ok := Row(score, WindowCount(main, pLen)), Eligible(main, pLen, dline);
    dist := Infinite;
    best := 1;
    var n := |main| - pLen + 1;
    var i := 0;
    while i < n
      invariant 0 <= i && (n >= 0 ==> i <= n) && (n < 0 ==> i == 0)
      invariant (best, dist) == ScanFold(ds, ok, i)
    {
      assert ok[i] == !(dline && SignedLine(main[i]));
      var d := score(i);
      if Below(d, dist) && !(dline && SignedLine(main[i])) {
        dist := Finite(d);
        best := i + 1;
      }
      i := i + 1;
    }
    assert i == |ok|;
  }

  /** The offset refinement: try the pattern lines in order, skip the short
      ones, and shift by the offset of the first one that matches near the
      window start `best`. */
  method RefineStart(pattern: seq<string>, main: seq<string>, best: int, pLen: nat) returns (start: int)
    requires pLen <= |pattern|
    ensures start == best + Refinement(pattern, main, best, pLen)
  {
    start := best;
    var lineno := best;
    ghost var long, offs := LongLines(pattern, pLen), LineOffsets(pattern, main, lineno, pLen);
    var k := 0;
    while k < pLen
      invariant 0 <= k <= pLen
      invariant start == best
      invariant Shift(long, offs, 0) == Shift(long, offs, k)
    {
      if |Strip(pattern[k])| < 3 {
        k := k + 1;
        continue;
      }
      var flag, offset := ScanOffsets(pattern, main, lineno, k);
      if flag {
        start := best + offset.value;
        break;
      }
      k := k + 1;
    }
  }

  /** The loop over `j = -5 .. 5` for pattern line `i`: an index outside
      `main` raises inside the `try` and is skipped. */
  method ScanOffsets(pattern: seq<string>, main: seq<string>, lineno: int, i: nat)
    returns (flag: bool, offset: Option<int>)
    requires i < |pattern|
    ensures offset == LineOffset(pattern, main, lineno, i)
    ensures flag <==> offset.Some?
  {
    flag := false;
    offset := None;
    ghost var row := MatchRow(pattern, main, lineno, i);
    var j := -5;
    while j < 6
      invariant -5 <= j <= 6
      invariant offset == OffsetScan(row, i, j)
      invariant flag <==> offset.Some?
    {
      var l := PyIndex(main, lineno - 1 + j);
      var matched := l.Some? && Strip(pattern[i]) == Strip(l.value);
      assert row[j + 5] == matched;
      OffsetScanStep(row, i, j);
      if matched {
        flag := true;
        if offset.None? || Abs(j - i) < Abs(offset.value) {
          offset := Some(j - i);
        }
      }
      j := j + 1;
    }
  }

  lemma OffsetScanStep(row: seq<bool>, i: nat, j: int)
    requires |row| == 11 && -5 <= j < 6
    ensures var prev := OffsetScan(row, i, j);
      OffsetScan(row, i, j + 1) == if row[j + 5] && (prev.None? || Abs(j - i) < Abs(prev.value)) then Some(j - i) else prev
  {
  }

  /** The scan over `j` keeps, among the matching `j`, the one closest to `i`,
      the smallest `j` on a tie; it keeps nothing exactly when no `j` matches. */
  lemma {:induction false} OffsetScanIsClosest(row: seq<bool>, i: nat, jEnd: int)
    requires |row| == 11 && -5 <= jEnd <= 6
    decreases jEnd + 5
    ensures OffsetScan(row, i, jEnd).None? <==> forall t :: 0 <= t < jEnd + 5 ==> !row[t]
    ensures OffsetScan(row, i, jEnd).Some? ==>
      var o := OffsetScan(row, i, jEnd).value;
      -5 <= o + i < jEnd && row[o + i + 5]
      && (forall t :: 0 <= t < jEnd + 5 && row[t] ==> Abs(o) <= Abs(t - 5 - i))
      && (forall t :: 0 <= t < o + i + 5 && row[t] ==> Abs(o) < Abs(t - 5 - i))
  {
    if jEnd > -5 {
      OffsetScanIsClosest(row, i, jEnd - 1);
      ClosestStep(row, i, jEnd, OffsetScan(row, i, jEnd - 1), OffsetScan(row, i, jEnd));
    }
  }

  /** One step of the scan keeps the closest match, for any result `prev`
      of the scan before `jEnd - 1`. */
  lemma ClosestStep(row: seq<bool>, i: nat, jEnd: int, prev: Option<int>, next: Option<int>)
    requires |row| == 11 && -5 < jEnd <= 6
    requires prev.None? <==> forall t :: 0 <= t < jEnd - 1 + 5 ==> !row[t]
    requires prev.Some? ==>
      var o := prev.value;
      -5 <= o + i < jEnd - 1 && row[o + i + 5]
      && (forall t :: 0 <= t < jEnd - 1 + 5 && row[t] ==> Abs(o) <= Abs(t - 5 - i))
      && (forall t :: 0 <= t < o + i + 5 && row[t] ==> Abs(o) < Abs(t - 5 - i))
    requires next == if row[jEnd - 1 + 5] && (prev.None? || Abs(jEnd - 1 - i) < Abs(prev.value)) then Some(jEnd - 1 - i) else prev
    ensures next.None? <==> forall t :: 0 <= t < jEnd + 5 ==> !row[t]
    ensures next.Some? ==>
      var o := next.value;
      -5 <= o + i < jEnd && row[o + i + 5]
      && (forall t :: 0 <= t < jEnd + 5 && row[t] ==> Abs(o) <= Abs(t - 5 - i))
      && (forall t :: 0 <= t < o + i + 5 && row[t] ==> Abs(o) < Abs(t - 5 - i))
  {
  }

  /** With no anchor line among `s ..` the refinement does not shift. */
  lemma {:induction false} ShiftWithoutAnchor(long: seq<bool>, offs: seq<Option<int>>, s: nat)
    requires |long| == |offs| && s <= |long|
    requires forall i :: s <= i < |long| ==> !Anchor(long, offs, i)
    decreases |long| - s
    ensures Shift(long, offs, s) == 0
  {
    if s < |long| {
      assert !Anchor(long, offs, s);
      ShiftWithoutAnchor(long, offs, s + 1);
    }
  }

  /** The refinement shifts by the offset of the first anchor line. */
  lemma {:induction false} ShiftAtFirstAnchor(long: seq<bool>, offs: seq<Option<int>>, s: nat, a: nat)
    requires |long| == |offs| && s <= a
    requires Anchor(long, offs, a)
    requires forall k :: s <= k < a ==> !Anchor(long, offs, k)
    decreases a - s
    ensures Shift(long, offs, s) == offs[a].value
  {
    if s < a {
      assert !Anchor(long, offs, s);
      ShiftAtFirstAnchor(long, offs, s + 1, a);
    }
  }

  /** An exact copy of the pattern in `main` at 1-based line `k`, with no
      earlier window at distance zero, is the best window, at distance zero. */
  lemma ExactCopyIsBest(pattern: seq<string>, main: seq<string>, k: nat)
    requires 1 <= k && k - 1 + |pattern| <= |main| && main[k - 1..k - 1 + |pattern|] == pattern
    requires forall v :: 0 <= v < k - 1 && Candidate(main, |pattern|, false, v) ==>
      WindowDistance(pattern, main, |pattern|, v) > 0
    ensures IsBest(pattern, main, |pattern|, false, k - 1)
    ensures WindowDistance(pattern, main, |pattern|, k - 1) == 0
  {
    LevSelf(Join(pattern, "\n"));
    var ds, ok := Scores(pattern, main, |pattern|), Eligible(main, |pattern|, false);
    assert ok[k - 1];
    assert forall v :: 0 <= v < k - 1 && ok[v] ==> ds[v] > ds[k - 1];
  }

  /** The same copy, when its first long line is among the first six, is not
      moved by the refinement: that line matches itself at offset zero. */
  lemma ExactCopyIsNotShifted(pattern: seq<string>, main: seq<string>, k: nat, a: nat)
    requires 1 <= k && k - 1 + |pattern| <= |main| && main[k - 1..k - 1 + |pattern|] == pattern
    requires a < |pattern| && a <= 5 && |Strip(pattern[a])| >= 3
    requires forall i :: 0 <= i < a ==> |Strip(pattern[i])| < 3
    ensures Refinement(pattern, main, k, |pattern|) == 0
  {
    var p := |pattern|;
    assert main[k - 1 + a] == pattern[a];
    var row := MatchRow(pattern, main, k, a);
    assert row[a + 5];
    OffsetScanIsClosest(row, a, 6);
    assert OffsetScan(row, a, 6) == Some(0);
    var long, offs := LongLines(pattern, p), LineOffsets(pattern, main, k, p);
    assert Anchor(long, offs, a);
    ShiftAtFirstAnchor(long, offs, 0, a);
  }

  /** There is only one earliest minimum. */
  lemma EarliestMinimumIsUnique(ds: seq<nat>, ok: seq<bool>, w1: int, w2: int)
    requires |ds| == |ok| && EarliestMinimum(ds, ok, w1) && EarliestMinimum(ds, ok, w2)
    ensures w1 == w2
  {
  }

  /** Exact-copy idempotence: under the conditions above, find_most_similar_block
      returns the copy's own line `k` and distance zero. */
  lemma ExactCopyResult(pattern: seq<string>, main: seq<string>, k: nat, a: nat, start: int, dist: Distance)
    requires 1 <= k && k - 1 + |pattern| <= |main| && main[k - 1..k - 1 + |pattern|] == pattern
    requires forall v :: 0 <= v < k - 1 && Candidate(main, |pattern|, false, v) ==>
      WindowDistance(pattern, main, |pattern|, v) > 0
    requires a < |pattern| && a <= 5 && |Strip(pattern[a])| >= 3
    requires forall i :: 0 <= i < a ==> |Strip(pattern[i])| < 3
    requires BlockResult(pattern, main, |pattern|, false, start, dist)
    ensures start == k && dist == Finite(0)
  {
    ExactCopyIsBest(pattern, main, k);
    ExactCopyIsNotShifted(pattern, main, k, a);
    assert dist.Finite?;
    var w :| IsBest(pattern, main, |pattern|, false, w)
      && dist.n == WindowDistance(pattern, main, |pattern|, w)
      && start == w + 1 + Refinement(pattern, main, w + 1, |pattern|);
    EarliestMinimumIsUnique(Scores(pattern, main, |pattern|), Eligible(main, |pattern|, false), w, k - 1);
  }

  /** With `dline`, the chosen window never starts at an added or removed line. */
  lemma DlineSkipsSigned(pattern: seq<string>, main: seq<string>, pLen: nat, w: int)
    requires pLen >= 1 && IsBest(pattern, main, pLen, true, w)
    ensures !SignedLine(main[w])
  {
  }

  // ----- extract_context -----

  /** A context line (" ") or a removed line ("-"): the lines the file must already hold. */
  predicate IsOldLine(line: string) {
    StartsWith(line, " ") || StartsWith(line, "-")
  }

  predicate IsAddedLine(line: string) {
    !IsOldLine(line) && StartsWith(line, "+")
  }

  /** The context and removed lines of a hunk body with their first character dropped, in order. */
  function OldLines(lines: seq<string>): (r: seq<string>)
    ensures |r| <= |lines|
  {
    if lines == [] then []
    else (if IsOldLine(lines[0]) then [lines[0][1..]] else []) + OldLines(lines[1..])
  }

  /** The added lines of a hunk body with their '+' dropped, in order. */
  function AddedLines(lines: seq<string>): (r: seq<string>)
    ensures |r| <= |lines|
  {
    if lines == [] then []
    else (if IsAddedLine(lines[0]) then [lines[0][1..]] else []) + AddedLines(lines[1..])
  }

  /** extract_context: the old lines and their count, the added lines and their count. */
  function ExtractContext(lines: seq<string>): (r: (seq<string>, nat, seq<string>, nat))
    ensures r.1 == |r.0| && r.3 == |r.2|
    ensures r.1 + r.3 <= |lines|
  {
    CountsBound(lines);
    var kept, added := OldLines(lines), AddedLines(lines);
    (kept, |kept|, added, |added|)
  }

  /** Every line goes to at most one of the two lists. */
  lemma {:induction false} CountsBound(lines: seq<string>)
    ensures |OldLines(lines)| + |AddedLines(lines)| <= |lines|
  {
    if lines != [] {
      CountsBound(lines[1..]);
    }
  }

  /** The split works line by line, so it distributes over concatenation. */
  lemma {:induction false} OldAndAddedConcat(a: seq<string>, b: seq<string>)
    ensures OldLines(a + b) == OldLines(a) + OldLines(b)
    ensures AddedLines(a + b) == AddedLines(a) + AddedLines(b)
  {
    OldLinesConcat(a, b);
    AddedLinesConcat(a, b);
  }

  lemma {:induction false} OldLinesConcat(a: seq<string>, b: seq<string>)
    ensures OldLines(a + b) == OldLines(a) + OldLines(b)
  {
    if a == [] {
      assert a + b == b;
    } else {
      var ab := a + b;
      assert ab[0] == a[0] && ab[1..] == a[1..] + b;
      OldLinesConcat(a[1..], b);
      var o := if IsOldLine(a[0]) then [a[0][1..]] else [];
      assert OldLines(ab) == o + OldLines(a[1..] + b);
      assert o + (OldLines(a[1..]) + OldLines(b)) == (o + OldLines(a[1..])) + OldLines(b);
    }
  }

  lemma {:induction false} AddedLinesConcat(a: seq<string>, b: seq<string>)
    ensures AddedLines(a + b) == AddedLines(a) + AddedLines(b)
  {
    if a == [] {
      assert a + b == b;
    } else {
      var ab := a + b;
      assert ab[0] == a[0] && ab[1..] == a[1..] + b;
      AddedLinesConcat(a[1..], b);
      var d := if IsAddedLine(a[0]) then [a[0][1..]] else [];
      assert AddedLines(ab) == d + AddedLines(a[1..] + b);
      assert d + (AddedLines(a[1..]) + AddedLines(b)) == (d + AddedLines(a[1..])) + AddedLines(b);
    }
  }

  /** Prefixing each line with a sign and splitting again gives the lines back. */
  lemma {:induction false} SignedLinesRoundTrip(xs: seq<string>, sign: char)
    requires sign == ' ' || sign == '-' || sign == '+'
    ensures var body := seq(|xs|, k requires 0 <= k < |xs| => [sign] + xs[k]);
      (sign != '+' ==> OldLines(body) == xs && AddedLines(body) == [])
      && (sign == '+' ==> AddedLines(body) == xs && OldLines(body) == [])
  {
    var body := seq(|xs|, k requires 0 <= k < |xs| => [sign] + xs[k]);
    SignedRoundTrip(body, xs, sign);
  }

  lemma {:induction false} SignedRoundTrip(body: seq<string>, xs: seq<string>, sign: char)
    requires sign == ' ' || sign == '-' || sign == '+'
    requires |body| == |xs| && forall k :: 0 <= k < |xs| ==> body[k] == [sign] + xs[k]
    ensures sign != '+' ==> OldLines(body) == xs && AddedLines(body) == []
    ensures sign == '+' ==> AddedLines(body) == xs && OldLines(body) == []
  {
    if xs != [] {
      SignedRoundTrip(body[1..], xs[1..], sign);
      assert body[0][0] == sign && body[0][1..] == xs[0];
      assert xs == [xs[0]] + xs[1..];
    }
  }

  // ----- find_most_similar_files, the ranking -----

  /** The index of the earliest entry of least distance. */
  function EarliestMin(e: seq<(nat, string)>): (m: nat)
    requires e != []
    ensures m < |e|
  {
    if |e| == 1 then 0
    else
      var m := EarliestMin(e[1..]);
      if e[0].0 <= e[1..][m].0 then 0 else m + 1
  }

  /** No entry is nearer than the one `EarliestMin` picks, and every entry
      before it is farther. */
  lemma {:induction false} EarliestMinSpec(e: seq<(nat, string)>)
    requires e != []
    ensures forall k :: 0 <= k < |e| ==> e[EarliestMin(e)].0 <= e[k].0
    ensures forall k :: 0 <= k < EarliestMin(e) ==> e[k].0 > e[EarliestMin(e)].0
  {
    if |e| > 1 {
      EarliestMinSpec(e[1..]);
      assert forall k :: 1 <= k < |e| ==> e[k] == e[1..][k - 1];
    }
  }

  /** The first `n` entries of a stable sort by distance: the earliest entry
      of least distance, then the first `n - 1` of the rest. */
  function TopN(e: seq<(nat, string)>, n: nat): (r: seq<(nat, string)>)
    decreases n
    ensures |r| == if n <= |e| then n else |e|
  {
    if n == 0 || e == [] then []
    else
      var m := EarliestMin(e);
      [e[m]] + TopN(e[..m] + e[m + 1..], n - 1)
  }

  /** `e` without its earliest entry of least distance. */
  function RestAfterMin(e: seq<(nat, string)>): (r: seq<(nat, string)>)
    requires e != []
    ensures |r| == |e| - 1
  {
    var m := EarliestMin(e);
    e[..m] + e[m + 1..]
  }

  lemma RestAfterMinSpec(e: seq<(nat, string)>)
    requires e != []
    ensures multiset(e) == multiset(RestAfterMin(e)) + multiset{e[EarliestMin(e)]}
    ensures forall x :: x in RestAfterMin(e) ==> e[EarliestMin(e)].0 <= x.0
  {
    var m := EarliestMin(e);
    var rest := RestAfterMin(e);
    EarliestMinSpec(e);
    assert e == e[..m] + [e[m]] + e[m + 1..];
    forall x | x in rest
      ensures e[m].0 <= x.0
    {
      var k :| 0 <= k < |rest| && rest[k] == x;
      if k < m {
        assert rest[k] == e[k];
      } else {
        assert rest[k] == e[k + 1];
      }
    }
  }

  lemma {:induction false} TopNUnfold(e: seq<(nat, string)>, n: nat)
    requires n > 0 && e != []
    ensures TopN(e, n) == [e[EarliestMin(e)]] + TopN(RestAfterMin(e), n - 1)
  {
  }

  /** The ranking takes entries of `e`, counted as a multiset. */
  lemma {:induction false} TopNTakesFromInput(e: seq<(nat, string)>, n: nat)
    decreases n
    ensures multiset(TopN(e, n)) <= multiset(e)
  {
    if n > 0 && e != [] {
      var rest := RestAfterMin(e);
      TopNTakesFromInput(rest, n - 1);
      RestAfterMinSpec(e);
      TopNUnfold(e, n);
      var x := e[EarliestMin(e)];
      assert multiset(TopN(e, n)) == multiset{x} + multiset(TopN(rest, n - 1));
    }
  }

  /** The ranking is in nondecreasing distance. */
  lemma {:induction false} TopNIsSorted(e: seq<(nat, string)>, n: nat)
    decreases n
    ensures var r := TopN(e, n); forall a, b :: 0 <= a < b < |r| ==> r[a].0 <= r[b].0
  {
    if n > 0 && e != [] {
      var rest := RestAfterMin(e);
      TopNIsSorted(rest, n - 1);
      TopNTakesFromInput(rest, n - 1);
      RestAfterMinSpec(e);
      TopNUnfold(e, n);
      var t := TopN(rest, n - 1);
      var r := TopN(e, n);
      forall a, b | 0 <= a < b < |r|
        ensures r[a].0 <= r[b].0
      {
        assert r[b] == t[b - 1];
        if a == 0 {
          assert t[b - 1] in multiset(t);
        } else {
          assert r[a] == t[a - 1];
        }
      }
    }
  }

  /** An entry the ranking leaves out is at least as far as every entry it takes. */
  lemma {:induction false} LeftOutIsFarther(e: seq<(nat, string)>, n: nat, x: (nat, string))
    decreases n
    ensures multiset(TopN(e, n))[x] < multiset(e)[x] ==>
      forall k :: 0 <= k < |TopN(e, n)| ==> TopN(e, n)[k].0 <= x.0
  {
    if n > 0 && e != [] && multiset(TopN(e, n))[x] < multiset(e)[x] {
      LeftOutStep(e, n, x);
      var r, t := TopN(e, n), TopN(RestAfterMin(e), n - 1);
      LeftOutIsFarther(RestAfterMin(e), n - 1, x);
      forall k | 0 < k < |r|
        ensures r[k].0 <= x.0
      {
        assert r[k] == t[k - 1];
      }
    }
  }

  /** One round of the ranking, for an entry it leaves out: the entry is
      left out of the rest as well, and is no nearer than the entry taken. */
  lemma LeftOutStep(e: seq<(nat, string)>, n: nat, x: (nat, string))
    requires multiset(TopN(e, n))[x] < multiset(e)[x] && n > 0 && e != []
    ensures multiset(TopN(RestAfterMin(e), n - 1))[x] < multiset(RestAfterMin(e))[x]
    ensures TopN(e, n)[0].0 <= x.0
    ensures |TopN(e, n)| == |TopN(RestAfterMin(e), n - 1)| + 1
    ensures forall k :: 0 < k < |TopN(e, n)| ==> TopN(e, n)[k] == TopN(RestAfterMin(e), n - 1)[k - 1]
  {
    var rest := RestAfterMin(e);
    RestAfterMinSpec(e);
    TopNUnfold(e, n);
    var t := TopN(rest, n - 1);
    var y := e[EarliestMin(e)];
    assert multiset(TopN(e, n)) == multiset(t) + multiset{y};
    assert multiset(t)[x] < multiset(rest)[x];
    assert x in multiset(rest);
  }

  /** Every entry the ranking leaves out is at least as far as every entry it takes. */
  lemma TopNLeavesOutFarther(e: seq<(nat, string)>, n: nat)
    ensures var r := TopN(e, n);
      forall x, k :: multiset(r)[x] < multiset(e)[x] && 0 <= k < |r| ==> r[k].0 <= x.0
  {
    var r := TopN(e, n);
    forall x | multiset(r)[x] < multiset(e)[x]
      ensures forall k :: 0 <= k < |r| ==> r[k].0 <= x.0
    {
      LeftOutIsFarther(e, n, x);
    }
  }

  /** With all distances equal the ranking keeps the walk order. */
  lemma {:induction false} TopNKeepsOrderWhenAllEqual(e: seq<(nat, string)>, n: nat)
    requires forall k :: 0 <= k < |e| ==> e[k].0 == e[0].0
    decreases n
    ensures TopN(e, n) == e[..if n <= |e| then n else |e|]
  {
    if n > 0 && e != [] {
      EarliestMinSpec(e);
      assert EarliestMin(e) == 0;
      assert RestAfterMin(e) == e[1..];
      TopNKeepsOrderWhenAllEqual(e[1..], n - 1);
      TopNUnfold(e, n);
    }
  }

  /** The file names paired with their distance from the missing file's name, in walk order. */
  function Scored(target: string, files: seq<(string, string)>): (r: seq<(nat, string)>)
    ensures |r| == |files|
    ensures forall k :: 0 <= k < |files| ==> r[k] == (Lev(target, files[k].0), files[k].1)
  {
    seq(|files|, k requires 0 <= k < |files| => (Lev(target, files[k].0), files[k].1))
  }

  /** find_most_similar_files, after the walk: `files` holds each file's name
      and relative path in walk order; the result is the paths of the five
      entries ranked first by the distance of their name to `target`. */
  function MostSimilarFiles(target: string, files: seq<(string, string)>): (r: seq<string>)
    ensures |r| == if |files| < 5 then |files| else 5
    ensures forall k :: 0 <= k < |r| ==> r[k] == TopN(Scored(target, files), 5)[k].1
  {
    var top := TopN(Scored(target, files), 5);
    seq(|top|, k requires 0 <= k < |top| => top[k].1)
  }
}
