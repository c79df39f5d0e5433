/** split_patch: cutting a patch into one unit per hunk. Each unit carries
    the two file header lines of its block (and, for a commit, the commit
    message in front), and blocks of files whose names end with an ignored
    suffix yield no unit at all. The Python generator stops at the first
    exception, so the units are those yielded before it. */
module Split {
  import opened Results
  import opened Text
  import opened Chunks
  import opened PyList

  /** The file name endings whose blocks are skipped. */
  const Blacklist: seq<string> := [
    ".rst", ".yaml", ".yml", ".md", ".tcl", "CHANGES", "ANNOUNCE", "NEWS",
    ".pem", ".js", ".sha1", ".sha256", ".uuid", ".test", "manifest", ".xml",
    "_test.go", ".json", ".golden", ".txt", ".mdx"]

  /** `any(line.endswith(item) for item in blacklist)`. */
  predicate Blacklisted(line: string) {
    exists k :: 0 <= k < |Blacklist| && EndsWith(line, Blacklist[k])
  }

  // ---------------------------------------------------------------------
  // split_block

  /** One unit of split_block: the two file header lines, then the hunk. */
  function BlockUnit(a: string, b: string, hunk: seq<string>): string {
    a + "\n" + b + "\n" + Join(hunk, "\n")
  }

  /** The units of `hunks`, in order, under the header lines `a` and `b`. */
  function UnitsUnder(a: string, b: string, hunks: seq<seq<string>>): (r: seq<string>)
    ensures |r| == |hunks|
    ensures forall i :: 0 <= i < |hunks| ==> r[i] == BlockUnit(a, b, hunks[i])
  {
    if hunks == [] then []
    else UnitsUnder(a, b, hunks[..|hunks| - 1]) + [BlockUnit(a, b, hunks[|hunks| - 1])]
  }

  /** What split_block yields for `lines`: one unit per hunk, or nothing at
      all (None) when it raises because `lines` has fewer than two lines. */
  function BlockUnits(lines: seq<string>): (r: Option<seq<string>>)
  {
    if |lines| < 2 then None
    else Some(UnitsUnder(lines[0], lines[1], Pieces(lines, HunkMarker, 2)))
  }

  /** split_block: the loop over `line_no` from 2 closing a hunk at each `@@`. */
  method SplitBlock(lines: seq<string>) returns (r: Option<seq<string>>)
    ensures r == BlockUnits(lines)
  {
    if |lines| < 2 {
      return None;
    }
    var a, b := lines[0], lines[1];
    var units: seq<string> := [];
    var last := -1;
    var lineNo := 2;
    while lineNo < |lines|
      invariant 2 <= lineNo <= |lines|
      invariant last == Cut(lines, HunkMarker, 2, lineNo).1
      invariant units == UnitsUnder(a, b, Cut(lines, HunkMarker, 2, lineNo).0)
    {
      if StartsWith(lines[lineNo], "@@") {
        if last != -1 {
          units := units + [BlockUnit(a, b, lines[last..lineNo])];
          assert (Cut(lines, HunkMarker, 2, lineNo).0 + [lines[last..lineNo]])[..|Cut(lines, HunkMarker, 2, lineNo).0|]
            == Cut(lines, HunkMarker, 2, lineNo).0;
        }
        last := lineNo;
      }
      lineNo := lineNo + 1;
    }
    if last != -1 {
      var hs := Cut(lines, HunkMarker, 2, |lines|).0;
      units := units + [BlockUnit(a, b, lines[last..])];
      assert (hs + [lines[last..]])[..|hs|] == hs;
    }
    return Some(units);
  }

  /** A unit read back line by line is its two header lines followed by its
      hunk, when no line holds a line break. */
  lemma BlockUnitLines(a: string, b: string, hunk: seq<string>)
    requires hunk != []
    requires '\n' !in a && '\n' !in b && forall k :: 0 <= k < |hunk| ==> '\n' !in hunk[k]
    ensures Split(BlockUnit(a, b, hunk), '\n') == [a, b] + hunk
  {
    var xs := [a, b] + hunk;
    assert xs[1..] == [b] + hunk;
    assert ([b] + hunk)[1..] == hunk;
    assert Join(xs, "\n") == BlockUnit(a, b, hunk);
    SplitOfJoin(xs, '\n');
  }

  /** split_block loses nothing: each unit is the block's two header lines
      followed by one hunk that starts at an `@@` line and holds no other, and
      the hunks in order are exactly the block's lines from its first `@@` on. */
  lemma BlockUnitsReadBack(lines: seq<string>)
    requires |lines| >= 2 && forall k :: 0 <= k < |lines| ==> '\n' !in lines[k]
    ensures BlockUnits(lines).Some?
    ensures var us, hs := BlockUnits(lines).value, Pieces(lines, HunkMarker, 2);
      |us| == |hs|
      && (forall i :: 0 <= i < |us| ==> Shaped(HunkMarker, hs[i]) && Split(us[i], '\n') == [lines[0], lines[1]] + hs[i])
      && Flatten(hs) == lines[FirstMarker(lines, HunkMarker, 2)..]
  {
    var hs := Pieces(lines, HunkMarker, 2);
    var us := BlockUnits(lines).value;
    PiecesShaped(lines, HunkMarker, 2);
    PiecesCover(lines, HunkMarker, 2);
    forall i | 0 <= i < |us|
      ensures Shaped(HunkMarker, hs[i]) && Split(us[i], '\n') == [lines[0], lines[1]] + hs[i]
    {
      assert hs[i] in hs;
      PieceLinesIn(lines, hs, i);
      BlockUnitLines(lines[0], lines[1], hs[i]);
    }
  }

  /** The lines of a piece are lines of the block. */
  lemma PieceLinesIn(lines: seq<string>, hs: seq<seq<string>>, i: nat)
    requires |lines| >= 2 && hs == Pieces(lines, HunkMarker, 2) && i < |hs|
    requires forall k :: 0 <= k < |lines| ==> '\n' !in lines[k]
    ensures forall k :: 0 <= k < |hs[i]| ==> '\n' !in hs[i][k]
  {
    PiecesCover(lines, HunkMarker, 2);
    forall k | 0 <= k < |hs[i]|
      ensures '\n' !in hs[i][k]
    {
      FlattenHas(hs, i, k);
    }
  }

  /** A line of a piece is a line of the flattened pieces. */
  lemma {:induction false} FlattenHas(xss: seq<seq<string>>, i: nat, k: nat)
    requires i < |xss| && k < |xss[i]|
    ensures xss[i][k] in Flatten(xss)
    decreases |xss|
  {
    if i < |xss| - 1 {
      FlattenHas(xss[..|xss| - 1], i, k);
    }
    assert Flatten(xss) == Flatten(xss[..|xss| - 1]) + xss[|xss| - 1];
  }

  // ---------------------------------------------------------------------
  // split_patch

  /** split_patch's loop state: the units yielded so far, the commit
      message, `last_line` (the first line of the open block; -1 before any
      file header, -2 while the open block is skipped) and whether an
      exception has ended the generator. */
  datatype SplitState = SplitState(units: seq<string>, message: string, last: int, stopped: bool)

  /** `message + x` for each unit `x`. */
  function Prefixed(message: string, us: seq<string>): (r: seq<string>)
    ensures |r| == |us|
    ensures forall i :: 0 <= i < |us| ==> r[i] == message + us[i]
  {
    if us == [] then [] else Prefixed(message, us[..|us| - 1]) + [message + us[|us| - 1]]
  }

  /** Yielding the units of `block`, or stopping when split_block raises. */
  function Emit(st: SplitState, block: seq<string>): SplitState {
    match BlockUnits(block)
    case None => st.(stopped := true)
    case Some(us) => st.(units := st.units + Prefixed(st.message, us))
  }

  /** A file header line at `i`. The open block is split and yielded first;
      for a commit it ends `back` lines early, since those lines are the
      `diff`/`index` preamble of the next block. The first header fixes the
      commit message (the lines before that preamble). Then the new block
      opens, is skipped when `name` has an ignored ending, or the generator
      stops when `name` does not exist. */
  function AtHeader(lines: seq<string>, flagCommit: bool, st: SplitState, i: nat, back: nat, name: Option<string>): SplitState
    requires i < |lines| && st.last < i
  {
    var s1 := if st.last >= 0 then Emit(st, if flagCommit then PySlice(lines, st.last, i - back) else lines[st.last..i]) else st;
    if s1.stopped then s1
    else
      var s2 := if st.last == -1 && flagCommit then s1.(message := Join(lines[..Max0(i - back)], "\n")) else s1;
      match name
      case None => s2.(stopped := true)
      case Some(n) => s2.(last := if Blacklisted(n) then -2 else i)
  }

  /** How many lines before a header belong to its block's preamble in a
      commit: `diff` and `index` before `--- a/`, and also `new file mode`
      before `--- /dev/null`. */
  function Back(line: string): nat {
    if StartsWith(line, "--- a/") then 2 else 3
  }

  /** The line whose ending decides whether the block opened at `i` is
      skipped: the `--- a/` line itself, or the line after `--- /dev/null`,
      which may not exist. */
  function NameAt(lines: seq<string>, i: nat): Option<string>
    requires i < |lines|
  {
    if StartsWith(lines[i], "--- a/") then Some(lines[i])
    else if i + 1 < |lines| then Some(lines[i + 1])
    else None
  }

  /** One turn of the loop. The source tests `--- a/` and `--- /dev/null`
      one after the other; no line starts with both, so at most one test
      succeeds, and together they are the file marker of revise_patch. */
  function Step(lines: seq<string>, flagCommit: bool, st: SplitState, i: nat): SplitState
    requires i < |lines| && st.last < i
  {
    if st.stopped || !IsMarker(FileMarker, lines[i]) then st
    else AtHeader(lines, flagCommit, st, i, Back(lines[i]), NameAt(lines, i))
  }

  /** The state after the loop has seen `lines[..n]`. */
  function ScanTo(lines: seq<string>, flagCommit: bool, n: nat): (r: SplitState)
    requires n <= |lines|
    ensures r.last < n
  {
    if n == 0 then SplitState([], "", -1, false)
    else Step(lines, flagCommit, ScanTo(lines, flagCommit, n - 1), n - 1)
  }

  /** Everything split_patch yields. */
  function SplitPatchUnits(patch: string, flagCommit: bool): seq<string> {
    var lines := SplitLines(patch);
    var st := ScanTo(lines, flagCommit, |lines|);
    if !st.stopped && st.last >= 0 then Emit(st, lines[st.last..]).units else st.units
  }

  /** The loop body at one file header line, as the source writes it out
      for each of the two header kinds. */
  method OnHeader(lines: seq<string>, flagCommit: bool, units: seq<string>, message: string, last: int,
                  i: nat, back: nat, name: Option<string>)
    returns (units': seq<string>, message': string, last': int, stopped: bool)
    requires i < |lines| && last < i
    ensures SplitState(units', message', last', stopped)
      == AtHeader(lines, flagCommit, SplitState(units, message, last, false), i, back, name)
  {
    units', message', last', stopped := units, message, last, false;
    if last >= 0 {
      var block := if flagCommit then PySlice(lines, last, i - back) else lines[last..i];
      var us := SplitBlock(block);
      if us.None? {
        stopped := true;
        return;
      }
      units' := units + Prefixed(message, us.value);
    }
    if last == -1 && flagCommit {
      message' := Join(lines[..Max0(i - back)], "\n");
    }
    if name.None? {
      stopped := true;
      return;
    }
    last' := if Blacklisted(name.value) then -2 else i;
  }

  /** Once stopped, the state no longer changes. */
  lemma {:induction false} ScanStoppedStays(lines: seq<string>, flagCommit: bool, n: nat, m: nat)
    requires n <= m <= |lines| && ScanTo(lines, flagCommit, n).stopped
    ensures ScanTo(lines, flagCommit, m) == ScanTo(lines, flagCommit, n)
    decreases m - n
  {
    if n < m {
      ScanStoppedStays(lines, flagCommit, n, m - 1);
    }
  }

  /** split_patch, collecting what the generator yields. */
  method SplitPatch(patch: string, flagCommit: bool) returns (units: seq<string>)
    ensures units == SplitPatchUnits(patch, flagCommit)
  {
    var lines := SplitLines(patch);
    units := [];
    var message := "";
    var last := -1;
    var lineNo := 0;
    while lineNo < |lines|
      invariant lineNo <= |lines|
      invariant ScanTo(lines, flagCommit, lineNo) == SplitState(units, message, last, false)
    {
      ghost var st := SplitState(units, message, last, false);
      assert ScanTo(lines, flagCommit, lineNo + 1) == Step(lines, flagCommit, st, lineNo);
      var stopped := false;
      if StartsWith(lines[lineNo], "--- a/") {
        assert Back(lines[lineNo]) == 2 && NameAt(lines, lineNo) == Some(lines[lineNo]);
        units, message, last, stopped := OnHeader(lines, flagCommit, units, message, last, lineNo, 2, Some(lines[lineNo]));
      } else if StartsWith(lines[lineNo], "--- /dev/null") {
        var name := if lineNo + 1 < |lines| then Some(lines[lineNo + 1]) else None;
        assert Back(lines[lineNo]) == 3 && NameAt(lines, lineNo) == name;
        units, message, last, stopped := OnHeader(lines, flagCommit, units, message, last, lineNo, 3, name);
      }
      if stopped {
        ScanStoppedStays(lines, flagCommit, lineNo + 1, |lines|);
        return;
      }
      lineNo := lineNo + 1;
    }
    if last >= 0 {
      var us := SplitBlock(lines[last..]);
      if us.Some? {
        units := units + Prefixed(message, us.value);
      }
    }
  }

  // ---------------------------------------------------------------------
  // what split_patch promises

  /** The commit message in front of every unit of a commit: the lines
      before the first file header's preamble. */
  function CommitMessage(lines: seq<string>, f: nat): string
    requires f < |lines|
  {
    Join(lines[..Max0(f - Back(lines[f]))], "\n")
  }

  /** While scanning: nothing happens before the first file header, the
      message is fixed there, and every unit yielded starts with it. */
  ghost predicate MessageKept(lines: seq<string>, flagCommit: bool, n: nat)
    requires n <= |lines|
  {
    var st, f := ScanTo(lines, flagCommit, n), FirstMarker(lines, FileMarker, 0);
    (f >= n ==> st == SplitState([], "", -1, false))
    && (f < n ==> (st.last != -1 || st.stopped) && st.message == (if flagCommit then CommitMessage(lines, f) else ""))
    && forall k :: 0 <= k < |st.units| ==> StartsWith(st.units[k], st.message)
  }

  lemma PrefixStarts(m: string, x: string)
    ensures StartsWith(m + x, m)
  {
    assert (m + x)[..|m|] == m;
  }

  /** Yielding keeps the message, the open block, and units starting with the message. */
  lemma EmitKeepsMessage(st: SplitState, block: seq<string>)
    requires forall k :: 0 <= k < |st.units| ==> StartsWith(st.units[k], st.message)
    ensures var r := Emit(st, block);
      r.message == st.message && r.last == st.last
      && forall k :: 0 <= k < |r.units| ==> StartsWith(r.units[k], r.message)
  {
    var r := Emit(st, block);
    if BlockUnits(block).Some? {
      var vs := Prefixed(st.message, BlockUnits(block).value);
      assert r.units == st.units + vs;
      forall k | |st.units| <= k < |r.units|
        ensures StartsWith(r.units[k], r.message)
      {
        assert r.units[k] == vs[k - |st.units|];
        PrefixStarts(st.message, BlockUnits(block).value[k - |st.units|]);
      }
    }
  }

  lemma {:induction false} MessageKeptScan(lines: seq<string>, flagCommit: bool, n: nat)
    requires n <= |lines|
    ensures MessageKept(lines, flagCommit, n)
    decreases n
  {
    if n > 0 {
      MessageKeptScan(lines, flagCommit, n - 1);
      var st := ScanTo(lines, flagCommit, n - 1);
      var f, i := FirstMarker(lines, FileMarker, 0), n - 1;
      if f < i {
        if !st.stopped && IsMarker(FileMarker, lines[i]) {
          LaterHeaderKeepsMessage(lines, flagCommit, st, i);
        }
      } else if f == i {
        FirstHeaderSetsMessage(lines, flagCommit, i);
      } else {
        assert !IsMarker(FileMarker, lines[i]);
      }
    }
  }

  /** A header after the first one keeps the message and every unit's
      prefix. */
  lemma LaterHeaderKeepsMessage(lines: seq<string>, flagCommit: bool, st: SplitState, i: nat)
    requires i < |lines| && st.last < i && st.last != -1 && !st.stopped && IsMarker(FileMarker, lines[i])
    requires forall k :: 0 <= k < |st.units| ==> StartsWith(st.units[k], st.message)
    ensures var r := Step(lines, flagCommit, st, i);
      r.message == st.message && (r.last != -1 || r.stopped)
      && forall k :: 0 <= k < |r.units| ==> StartsWith(r.units[k], r.message)
  {
    var back := Back(lines[i]);
    var s1 := if st.last >= 0 then Emit(st, if flagCommit then PySlice(lines, st.last, i - back) else lines[st.last..i]) else st;
    if st.last >= 0 {
      EmitKeepsMessage(st, if flagCommit then PySlice(lines, st.last, i - back) else lines[st.last..i]);
    }
    assert s1.message == st.message;
    assert forall k :: 0 <= k < |s1.units| ==> StartsWith(s1.units[k], s1.message);
    assert Step(lines, flagCommit, st, i) == AtHeader(lines, flagCommit, st, i, back, NameAt(lines, i));
  }

  /** The first header fixes the message and yields nothing. */
  lemma FirstHeaderSetsMessage(lines: seq<string>, flagCommit: bool, i: nat)
    requires i < |lines| && IsMarker(FileMarker, lines[i])
    ensures var r := Step(lines, flagCommit, SplitState([], "", -1, false), i);
      r.units == [] && (r.last != -1 || r.stopped)
      && r.message == (if flagCommit then CommitMessage(lines, i) else "")
  {
  }

  /** Every unit split_patch yields for a commit starts with the commit
      message, the lines before the first file header's preamble; a patch
      without a file header yields no unit. */
  lemma UnitsCarryMessage(patch: string, flagCommit: bool)
    ensures var lines := SplitLines(patch);
      var f, us := FirstMarker(lines, FileMarker, 0), SplitPatchUnits(patch, flagCommit);
      (f == |lines| ==> us == [])
      && (flagCommit && f < |lines| ==> forall k :: 0 <= k < |us| ==> StartsWith(us[k], CommitMessage(lines, f)))
  {
    var lines := SplitLines(patch);
    var st := ScanTo(lines, flagCommit, |lines|);
    MessageKeptScan(lines, flagCommit, |lines|);
    if !st.stopped && st.last >= 0 {
      EmitKeepsMessage(st, lines[st.last..]);
    }
  }

  /** Whether a block is split rather than skipped: its name line exists
      and has no ignored ending. */
  predicate KeptBlock(b: seq<string>) {
    |b| >= 1 && NameAt(b, 0).Some? && !Blacklisted(NameAt(b, 0).value)
  }

  /** Reference for split_patch without a commit: the units of the kept
      blocks in order, up to the first block too short to split, and whether
      that stopped the generator. */
  function PlainUnits(blocks: seq<seq<string>>): (seq<string>, bool)
  {
    if blocks == [] then ([], false)
    else
      var (us, stop) := PlainUnits(blocks[..|blocks| - 1]);
      var b := blocks[|blocks| - 1];
      if stop || !KeptBlock(b) then (us, stop)
      else match BlockUnits(b)
        case None => (us, true)
        case Some(vs) => (us + vs, false)
  }

  lemma PlainUnitsSnoc(bs: seq<seq<string>>, b: seq<string>)
    ensures PlainUnits(bs + [b]) ==
      var (us, stop) := PlainUnits(bs);
      if stop || !KeptBlock(b) then (us, stop)
      else match BlockUnits(b)
        case None => (us, true)
        case Some(vs) => (us + vs, false)
  {
    assert (bs + [b])[..|bs|] == bs;
  }

  /** Every `--- /dev/null` header is followed by a line of its own block
      (the `+++` line of a well-formed diff). */
  predicate NewFilesNamed(lines: seq<string>) {
    forall k :: 0 <= k < |lines| && StartsWith(lines[k], "--- /dev/null") ==>
      k + 1 < |lines| && !IsMarker(FileMarker, lines[k + 1])
  }

  /** `last_line` for a block opened at `last`: -1 when none is open, -2
      when the open one is skipped. */
  function OpenLast(lines: seq<string>, last: int): int
    requires last < |lines|
  {
    if last < 0 then -1 else if KeptBlock(lines[last..]) then last else -2
  }

  /** Whether a block is kept is decided by its first two lines. */
  lemma KeptBlockPrefix(lines: seq<string>, j: nat, e: nat)
    requires j < e <= |lines| && NewFilesNamed(lines)
    requires IsMarker(FileMarker, lines[j]) && (e < |lines| ==> IsMarker(FileMarker, lines[e]))
    ensures KeptBlock(lines[j..e]) == KeptBlock(lines[j..])
  {
    var b, b' := lines[j..e], lines[j..];
    assert b[0] == b'[0] == lines[j];
    if !StartsWith(lines[j], "--- a/") {
      assert j + 1 < e;
      assert b[1] == b'[1] == lines[j + 1];
    }
  }

  /** While scanning without a commit: the state agrees with the reference
      over the blocks closed so far and the open one. */
  ghost predicate PlainScan(lines: seq<string>, n: nat)
    requires n <= |lines|
  {
    var st, c := ScanTo(lines, false, n), Cut(lines, FileMarker, 0, n);
    var p := PlainUnits(c.0);
    st.units == p.0 && st.stopped == p.1 && st.message == ""
    && (!st.stopped ==> st.last == OpenLast(lines, c.1))
  }

  lemma PrefixedEmpty(us: seq<string>)
    ensures Prefixed("", us) == us
  {
    assert forall i :: 0 <= i < |us| ==> Prefixed("", us)[i] == "" + us[i] == us[i];
  }

  /** One turn of the loop at a file header keeps the agreement. */
  lemma PlainScanAtHeader(lines: seq<string>, i: nat)
    requires i < |lines| && NewFilesNamed(lines) && PlainScan(lines, i)
    requires IsMarker(FileMarker, lines[i]) && !ScanTo(lines, false, i).stopped
    ensures PlainScan(lines, i + 1)
  {
    var st, c := ScanTo(lines, false, i), Cut(lines, FileMarker, 0, i);
    assert ScanTo(lines, false, i + 1) == AtHeader(lines, false, st, i, Back(lines[i]), NameAt(lines, i));
    assert NameAt(lines, i).Some?;
    if c.1 != -1 {
      var b := lines[c.1..i];
      assert Cut(lines, FileMarker, 0, i + 1) == (c.0 + [b], i);
      PlainUnitsSnoc(c.0, b);
      CutShaped(lines, FileMarker, 0, i);
      assert b[0] == lines[c.1];
      KeptBlockPrefix(lines, c.1, i);
      if st.last >= 0 {
        if BlockUnits(b).Some? {
          PrefixedEmpty(BlockUnits(b).value);
        }
      }
    } else {
      assert Cut(lines, FileMarker, 0, i + 1) == (c.0, i);
    }
  }

  lemma {:induction false} PlainScanHolds(lines: seq<string>, n: nat)
    requires n <= |lines| && NewFilesNamed(lines)
    ensures PlainScan(lines, n)
    decreases n
  {
    if n > 0 {
      var i := n - 1;
      PlainScanHolds(lines, i);
      var st, c := ScanTo(lines, false, i), Cut(lines, FileMarker, 0, i);
      if !IsMarker(FileMarker, lines[i]) {
        assert ScanTo(lines, false, n) == st;
        assert Cut(lines, FileMarker, 0, n) == c;
      } else if st.stopped {
        assert ScanTo(lines, false, n) == st;
        if c.1 != -1 {
          assert Cut(lines, FileMarker, 0, n) == (c.0 + [lines[c.1..i]], i);
          PlainUnitsSnoc(c.0, lines[c.1..i]);
        } else {
          assert Cut(lines, FileMarker, 0, n) == (c.0, i);
        }
      } else {
        PlainScanAtHeader(lines, i);
      }
    }
  }

  /** Without a commit message, split_patch cuts the patch into file blocks
      exactly where revise_patch does, skips every block whose file name has
      an ignored ending, and yields the units of the other blocks in order,
      up to the first block too short to split. */
  lemma PlainSplitFollowsBlocks(patch: string)
    requires NewFilesNamed(SplitLines(patch))
    ensures SplitPatchUnits(patch, false) == PlainUnits(Pieces(SplitLines(patch), FileMarker, 0)).0
  {
    var lines := SplitLines(patch);
    PlainScanHolds(lines, |lines|);
    var c := Cut(lines, FileMarker, 0, |lines|);
    if c.1 != -1 {
      PlainUnitsSnoc(c.0, lines[c.1..]);
      if BlockUnits(lines[c.1..]).Some? {
        PrefixedEmpty(BlockUnits(lines[c.1..]).value);
      }
    }
  }

  /** A patch whose every file block is skipped yields nothing. */
  lemma {:induction false} SkippedBlocksYieldNothing(blocks: seq<seq<string>>)
    requires forall k :: 0 <= k < |blocks| ==> !KeptBlock(blocks[k])
    ensures PlainUnits(blocks) == ([], false)
    decreases |blocks|
  {
    if blocks != [] {
      SkippedBlocksYieldNothing(blocks[..|blocks| - 1]);
    }
  }
}
