/** The hunk header `@@ -a,b +c,d @@tail` as revise_hunk reads it with
    `re.findall(r"@@ -(\d+),(\d+) \+(\d+),(\d+) @@(.*)", line)[0]` and writes
    it back with recounted lengths. */
module Headers {
  import opened Results
  import opened Text

  /** The five groups of the header pattern, as text. */
  datatype HunkHeader = HunkHeader(oldStart: string, oldLen: string, newStart: string, newLen: string, tail: string)

  /** One `(\d+)` group at the start of `t` followed by the literal `sep`:
      the digits and the text after `sep`. The group takes the longest run,
      since `sep` does not start with a digit, so no shorter run could be
      followed by it. */
  function Group(t: string, sep: string): (r: Option<(string, string)>)
    ensures r.Some? ==> r.value.0 != [] && AllDigits(r.value.0)
  {
    var j := DigitEnd(t, 0);
    if j == 0 || !StartsWith(t[j..], sep) then None else Some((t[..j], t[j + |sep|..]))
  }

  /** The `(.*)` group: the text up to a line feed. */
  function LineRest(t: string): (r: string)
    ensures '\n' !in r
  {
    t[..IndexOfChar(t, '\n')]
  }

  /** The pattern matched at position `p` of `s`. */
  function MatchAt(s: string, p: nat): Option<HunkHeader>
    requires p <= |s|
  {
    var t := s[p..];
    if !StartsWith(t, "@@ -") then None
    else match Group(t[4..], ",")
      case None => None
      case Some((a, t1)) => match Group(t1, " +")
        case None => None
        case Some((b, t2)) => match Group(t2, ",")
          case None => None
          case Some((c, t3)) => match Group(t3, " @@")
            case None => None
            case Some((d, t4)) => Some(HunkHeader(a, b, c, d, LineRest(t4)))
  }

  /** The first match at or after `p`, as `findall(...)[0]` takes it. */
  function MatchFrom(s: string, p: nat): Option<HunkHeader>
    requires p <= |s|
    decreases |s| - p
  {
    if p == |s| then None
    else match MatchAt(s, p)
      case Some(h) => Some(h)
      case None => MatchFrom(s, p + 1)
  }

  /** `findall(...)[0]`; None where Python raises IndexError. */
  function ParseHunkHeader(line: string): Option<HunkHeader> {
    MatchFrom(line, 0)
  }

  /** A header whose groups the pattern can match: four non-empty digit runs
      and a tail without line feed. */
  predicate WellFormed(h: HunkHeader) {
    h.oldStart != [] && AllDigits(h.oldStart) && h.oldLen != [] && AllDigits(h.oldLen)
    && h.newStart != [] && AllDigits(h.newStart) && h.newLen != [] && AllDigits(h.newLen)
    && '\n' !in h.tail
  }

  /** The header line revise_hunk writes, without its line feed. */
  function Render(h: HunkHeader): string {
    "@@ -" + (h.oldStart + ("," + (h.oldLen + (" +" + (h.newStart + ("," + (h.newLen + (" @@" + h.tail))))))))
  }

  /** Every header the pattern finds is well formed. */
  lemma {:induction false} MatchFromWellFormed(s: string, p: nat)
    requires p <= |s|
    ensures MatchFrom(s, p).Some? ==> WellFormed(MatchFrom(s, p).value)
    decreases |s| - p
  {
    if p < |s| && MatchAt(s, p).None? {
      MatchFromWellFormed(s, p + 1);
    }
  }

  /** A non-empty digit run, then a separator that does not start with a
      digit: the group is that run, and the match goes on after the separator. */
  lemma GroupOf(run: string, sep: string, rest: string)
    requires run != [] && AllDigits(run) && sep != [] && !IsDigit(sep[0])
    ensures Group(run + (sep + rest), sep) == Some((run, rest))
  {
    var t := run + (sep + rest);
    DigitEndOf(t, 0, run, sep + rest);
    assert t[|run|..] == sep + rest;
    assert t[..|run|] == run;
    assert t[|run| + |sep|..] == rest;
  }

  /** A digit run followed by text that does not start with a digit ends where the text starts. */
  lemma {:induction false} DigitEndOf(s: string, i: nat, run: string, rest: string)
    requires i <= |s| && s[i..] == run + rest && AllDigits(run)
    requires rest == [] || !IsDigit(rest[0])
    ensures DigitEnd(s, i) == i + |run|
    decreases |run|
  {
    if run != [] {
      assert s[i] == run[0];
      assert s[i + 1..] == run[1..] + rest;
      DigitEndOf(s, i + 1, run[1..], rest);
    } else if rest != [] {
      assert s[i] == rest[0];
    }
  }

  /** A rendered header with four digit runs matches at its start; the
      tail group keeps the tail up to its first line feed. */
  lemma MatchAtRendered(h: HunkHeader)
    requires h.oldStart != [] && AllDigits(h.oldStart) && h.oldLen != [] && AllDigits(h.oldLen)
    requires h.newStart != [] && AllDigits(h.newStart) && h.newLen != [] && AllDigits(h.newLen)
    ensures MatchAt(Render(h), 0) == Some(HunkHeader(h.oldStart, h.oldLen, h.newStart, h.newLen, LineRest(h.tail)))
  {
    var s := Render(h);
    var r4 := " @@" + h.tail;
    var r3 := "," + (h.newLen + r4);
    var r2 := " +" + (h.newStart + r3);
    var r1 := "," + (h.oldLen + r2);
    assert s[0..] == s;
    assert s[..4] == "@@ -";
    assert s[4..] == h.oldStart + r1;
    GroupOf(h.oldStart, ",", h.oldLen + r2);
    GroupOf(h.oldLen, " +", h.newStart + r3);
    GroupOf(h.newStart, ",", h.newLen + r4);
    GroupOf(h.newLen, " @@", h.tail);
  }

  lemma LineRestWhole(t: string)
    requires '\n' !in t
    ensures LineRest(t) == t
  {
    assert IndexOfChar(t, '\n') == |t|;
  }

  lemma LineRestThen(a: string, rest: string)
    requires '\n' !in a
    ensures LineRest(a + ("\n" + rest)) == a
  {
    var t := a + ("\n" + rest);
    assert forall k :: 0 <= k < |a| ==> t[k] == a[k];
    IndexOfCharAt(t, '\n', |a|);
    assert t[..|a|] == a;
  }

  /** A rendered well-formed header matches at its start. */
  lemma MatchAtRender(h: HunkHeader)
    requires WellFormed(h)
    ensures MatchAt(Render(h), 0) == Some(h)
  {
    MatchAtRendered(h);
    LineRestWhole(h.tail);
  }

  /** Text after the tail, when it starts on a new line, does not change
      what the header reads as. */
  lemma MatchAtRenderThen(h: HunkHeader, rest: string)
    requires WellFormed(h)
    ensures MatchAt(Render(h) + "\n" + rest, 0) == Some(h)
  {
    var t := h.tail + ("\n" + rest);
    var g := HunkHeader(h.oldStart, h.oldLen, h.newStart, h.newLen, t);
    RenderAppend(h, "\n" + rest);
    assert Render(h) + "\n" + rest == Render(h) + ("\n" + rest);
    MatchAtRendered(g);
    LineRestThen(h.tail, rest);
  }

  /** Text appended to a rendered header is text appended to its tail. */
  lemma RenderAppend(h: HunkHeader, x: string)
    ensures Render(h) + x == Render(HunkHeader(h.oldStart, h.oldLen, h.newStart, h.newLen, h.tail + x))
  {
    var r4 := " @@" + h.tail;
    var r3 := "," + (h.newLen + r4);
    var r2 := " +" + (h.newStart + r3);
    var r1 := "," + (h.oldLen + r2);
    calc {
      Render(h) + x;
      "@@ -" + (h.oldStart + r1) + x;
      "@@ -" + (h.oldStart + (r1 + x));
      { assert r1 + x == "," + (h.oldLen + (r2 + x)); }
      "@@ -" + (h.oldStart + ("," + (h.oldLen + (r2 + x))));
      { assert r2 + x == " +" + (h.newStart + (r3 + x)); }
      "@@ -" + (h.oldStart + ("," + (h.oldLen + (" +" + (h.newStart + (r3 + x))))));
      { assert r3 + x == "," + (h.newLen + (r4 + x)); assert r4 + x == " @@" + (h.tail + x); }
      Render(HunkHeader(h.oldStart, h.oldLen, h.newStart, h.newLen, h.tail + x));
    }
  }

  /** Reading back a header revise_hunk wrote gives the same five groups. */
  lemma ParseRender(h: HunkHeader)
    requires WellFormed(h)
    ensures ParseHunkHeader(Render(h)) == Some(h)
  {
    MatchAtRender(h);
  }
}
