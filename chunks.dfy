/** Cutting the lines of a diff at marker lines: the loops over `line_no`
    with a running `last_line` in revise_patch, revise_block and
    split_block all close a piece when the next marker line is met and close
    the last piece at the end; lines before the first marker are dropped. */
module Chunks {
  import opened Text

  /** The two kinds of marker line: a hunk header `@@`, or the first file
      header line of a diff block (`--- a/` or `--- /dev/null`). */
  datatype Marker = HunkMarker | FileMarker

  predicate IsMarker(m: Marker, line: string) {
    match m
    case HunkMarker => StartsWith(line, "@@")
    case FileMarker => StartsWith(line, "--- a/") || StartsWith(line, "--- /dev/null")
  }

  /** A piece as the loops cut it: one marker line, then no other. */
  predicate Shaped(m: Marker, c: seq<string>) {
    |c| >= 1 && IsMarker(m, c[0]) && forall k :: 1 <= k < |c| ==> !IsMarker(m, c[k])
  }

  /** The state after scanning `lines[lo .. n]`: the pieces closed so far and
      `last_line`, the start of the open piece (-1 before the first marker). */
  function Cut(lines: seq<string>, m: Marker, lo: nat, n: nat): (r: (seq<seq<string>>, int))
    requires lo <= n <= |lines|
    ensures r.1 == -1 || lo <= r.1 < n
    decreases n - lo
  {
    if n == lo then ([], -1)
    else
      var (done, last) := Cut(lines, m, lo, n - 1);
      if IsMarker(m, lines[n - 1]) then
        (if last != -1 then done + [lines[last..n - 1]] else done, n - 1)
      else (done, last)
  }

  /** All pieces: the closed ones and the open one at the end. */
  function Pieces(lines: seq<string>, m: Marker, lo: nat): seq<seq<string>>
    requires lo <= |lines|
  {
    var (done, last) := Cut(lines, m, lo, |lines|);
    if last != -1 then done + [lines[last..]] else done
  }

  /** One more line: a marker closes the piece that is open, if any, and
      opens a new one at itself; any other line changes nothing. */
  lemma CutStep(lines: seq<string>, m: Marker, lo: nat, n: nat)
    requires lo <= n < |lines|
    ensures var r := Cut(lines, m, lo, n);
      Cut(lines, m, lo, n + 1) == if IsMarker(m, lines[n]) then (if r.1 != -1 then r.0 + [lines[r.1..n]] else r.0, n) else r
  {
  }

  /** The index of the first marker line at or after `i`, `|lines|` if none. */
  function FirstMarker(lines: seq<string>, m: Marker, i: nat): (r: nat)
    requires i <= |lines|
    ensures i <= r <= |lines|
    ensures r < |lines| ==> IsMarker(m, lines[r])
    ensures forall k :: i <= k < r ==> !IsMarker(m, lines[k])
    decreases |lines| - i
  {
    if i == |lines| || IsMarker(m, lines[i]) then i else FirstMarker(lines, m, i + 1)
  }

  function Flatten(xss: seq<seq<string>>): (r: seq<string>)
  {
    if xss == [] then [] else Flatten(xss[..|xss| - 1]) + xss[|xss| - 1]
  }

  lemma FlattenAppend(xss: seq<seq<string>>, xs: seq<string>)
    ensures Flatten(xss + [xs]) == Flatten(xss) + xs
  {
    assert (xss + [xs])[..|xss|] == xss;
  }

  /** While scanning: a piece is open exactly when a marker has been met,
      and it starts at or after the first one. */
  lemma {:induction false} CutOpen(lines: seq<string>, m: Marker, lo: nat, n: nat)
    requires lo <= n <= |lines|
    ensures Cut(lines, m, lo, n).1 == -1 <==> FirstMarker(lines, m, lo) >= n
    ensures Cut(lines, m, lo, n).1 != -1 ==> FirstMarker(lines, m, lo) <= Cut(lines, m, lo, n).1
    decreases n - lo
  {
    if n > lo {
      CutOpen(lines, m, lo, n - 1);
    }
  }

  /** While scanning: the closed pieces followed by the open one are exactly
      the lines from the first marker on. */
  lemma {:induction false} CutCovers(lines: seq<string>, m: Marker, lo: nat, n: nat)
    requires lo <= n <= |lines|
    ensures var r, f := Cut(lines, m, lo, n), FirstMarker(lines, m, lo);
      (r.1 == -1 ==> Flatten(r.0) == [])
      && (r.1 != -1 ==> f <= r.1 && Flatten(r.0) + lines[r.1..n] == lines[f..n])
    decreases n - lo
  {
    CutOpen(lines, m, lo, n);
    if n > lo {
      CutCovers(lines, m, lo, n - 1);
      CutOpen(lines, m, lo, n - 1);
      var r := Cut(lines, m, lo, n - 1);
      var f := FirstMarker(lines, m, lo);
      var r' := Cut(lines, m, lo, n);
      if r.1 != -1 {
        if IsMarker(m, lines[n - 1]) {
          assert r' == (r.0 + [lines[r.1..n - 1]], n - 1);
          FlattenAppend(r.0, lines[r.1..n - 1]);
          SliceSplit(lines, f, n - 1, n);
        } else {
          assert r' == r;
          SliceSnoc(lines, r.1, n);
          SliceSnoc(lines, f, n);
        }
      } else if IsMarker(m, lines[n - 1]) {
        assert r' == (r.0, n - 1);
        assert f == n - 1;
      } else {
        assert r' == r;
      }
    }
  }

  lemma SliceSplit(lines: seq<string>, a: nat, b: nat, c: nat)
    requires a <= b <= c <= |lines|
    ensures lines[a..b] + lines[b..c] == lines[a..c]
  {
  }

  lemma SliceSnoc(lines: seq<string>, a: nat, n: nat)
    requires a < n <= |lines|
    ensures lines[a..n - 1] + [lines[n - 1]] == lines[a..n]
  {
  }

  /** While scanning: every closed piece and the open one are shaped. */
  lemma {:induction false} CutShaped(lines: seq<string>, m: Marker, lo: nat, n: nat)
    requires lo <= n <= |lines|
    ensures var r := Cut(lines, m, lo, n);
      (r.1 != -1 ==> Shaped(m, lines[r.1..n]))
      && (forall c :: c in r.0 ==> Shaped(m, c))
    decreases n - lo
  {
    if n > lo {
      CutShaped(lines, m, lo, n - 1);
      var r := Cut(lines, m, lo, n - 1);
      var r' := Cut(lines, m, lo, n);
      if IsMarker(m, lines[n - 1]) {
        if r.1 != -1 {
          assert r' == (r.0 + [lines[r.1..n - 1]], n - 1);
        } else {
          assert r' == (r.0, n - 1);
        }
        assert lines[n - 1..n] == [lines[n - 1]];
      } else {
        assert r' == r;
        if r.1 != -1 {
          ShapedSnoc(m, lines[r.1..n - 1], lines[n - 1]);
          SliceSnoc(lines, r.1, n);
        }
      }
    }
  }

  /** A shaped piece stays shaped when a non-marker line is appended. */
  lemma ShapedSnoc(m: Marker, c: seq<string>, line: string)
    requires Shaped(m, c) && !IsMarker(m, line)
    ensures Shaped(m, c + [line])
  {
    var c' := c + [line];
    assert forall k :: 1 <= k < |c'| - 1 ==> c'[k] == c[k];
  }

  /** The pieces together are the lines from the first marker on: nothing
      after it is lost, duplicated or reordered. */
  lemma PiecesCover(lines: seq<string>, m: Marker, lo: nat)
    requires lo <= |lines|
    ensures Flatten(Pieces(lines, m, lo)) == lines[FirstMarker(lines, m, lo)..]
  {
    CutCovers(lines, m, lo, |lines|);
    CutOpen(lines, m, lo, |lines|);
    var r := Cut(lines, m, lo, |lines|);
    var f := FirstMarker(lines, m, lo);
    if r.1 != -1 {
      assert Pieces(lines, m, lo) == r.0 + [lines[r.1..]];
      FlattenAppend(r.0, lines[r.1..]);
      assert lines[r.1..|lines|] == lines[r.1..];
      assert lines[f..|lines|] == lines[f..];
    } else {
      assert Pieces(lines, m, lo) == r.0;
      assert lines[f..] == [];
    }
  }

  /** Every piece starts at a marker line and holds no other marker line. */
  lemma PiecesShaped(lines: seq<string>, m: Marker, lo: nat)
    requires lo <= |lines|
    ensures forall c :: c in Pieces(lines, m, lo) ==> Shaped(m, c)
  {
    CutShaped(lines, m, lo, |lines|);
  }

  /** No marker at or after `lo` means no piece at all. */
  lemma NoMarkerNoPieces(lines: seq<string>, m: Marker, lo: nat)
    requires lo <= |lines|
    requires forall k :: lo <= k < |lines| ==> !IsMarker(m, lines[k])
    ensures Pieces(lines, m, lo) == []
  {
    CutCovers(lines, m, lo, |lines|);
    CutOpen(lines, m, lo, |lines|);
    CutShaped(lines, m, lo, |lines|);
    var (done, last) := Cut(lines, m, lo, |lines|);
    if done != [] {
      assert Shaped(m, done[0]);
      FlattenNonEmpty(done, 0);
    }
  }

  lemma {:induction false} FlattenNonEmpty(xss: seq<seq<string>>, i: nat)
    requires i < |xss| && xss[i] != []
    ensures Flatten(xss) != []
    decreases |xss|
  {
    if i < |xss| - 1 {
      FlattenNonEmpty(xss[..|xss| - 1], i);
    }
  }

  /** Scanning further only closes more pieces: the pieces closed so far
      stay, in order, at the front. */
  lemma {:induction false} CutGrows(lines: seq<string>, m: Marker, lo: nat, n: nat, n': nat)
    requires lo <= n <= n' <= |lines|
    ensures Cut(lines, m, lo, n).0 <= Cut(lines, m, lo, n').0
    decreases n' - n
  {
    if n < n' {
      CutGrows(lines, m, lo, n, n' - 1);
    }
  }

  /** The pieces closed while scanning are at the front of all the pieces. */
  lemma PiecesExtendCut(lines: seq<string>, m: Marker, lo: nat, n: nat)
    requires lo <= n <= |lines|
    ensures Cut(lines, m, lo, n).0 <= Pieces(lines, m, lo)
  {
    CutGrows(lines, m, lo, n, |lines|);
  }
}
