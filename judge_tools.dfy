/** The two tools the pre-judge agent may call on the downstream tree:
    `view_code`, which shows a numbered window of a file, and
    `locate_symbol`, whose `git grep` output is cut short. */
module JudgeTools {
  import opened Results
  import opened Text

  // ---------------------------------------------------------------------
  // view_code

  /** The largest distance allowed between the first and last line shown. */
  const MaxSpan := 500

  /** The window asked for, after the three corrections of `view_code`. */
  predicate WellClamped(s: int, e: int) {
    1 <= s <= e && e - s <= MaxSpan
  }

  /** The input corrections of `view_code`, one after the other: the start
      is raised to 1, the end to the start, and the end is pulled back to
      at most `MaxSpan` lines past the start. */
  method ClampWindow(startLine: int, endLine: int) returns (s: int, e: int)
    ensures WellClamped(s, e)
    ensures s == if startLine < 1 then 1 else startLine
    ensures e == if endLine < s then s else if endLine - s > MaxSpan then s + MaxSpan else endLine
  {
    s, e := startLine, endLine;
    if s < 1 {
      s := 1;
    }
    if e < s {
      e := s;
    }
    if e - s > MaxSpan {
      e := s + MaxSpan;
    }
  }

  /** A window that already satisfies the corrections is left as asked. */
  lemma ClampKeepsValid(startLine: int, endLine: int)
    requires WellClamped(startLine, endLine)
    ensures (if startLine < 1 then 1 else startLine) == startLine
    ensures (if endLine < startLine then startLine
             else if endLine - startLine > MaxSpan then startLine + MaxSpan else endLine) == endLine
  {
  }

  /** What `git show <ref>:<path>` gave: the file's text, None when the
      command failed, or Err when it timed out. */
  type Shown = Result<Option<string>>

  const Fence := "```"

  /** `f"{i:5d}: {line}"`. */
  function NumberedLine(i: nat, line: string): string {
    PadLeft(NatToString(i), 5) + ": " + line
  }

  /** The first line of the output. */
  function ShowHeader(path: string, ref: string, s: int, e: int, total: nat): string {
    "Showing " + path + " lines " + IntToString(s) + "-" + IntToString(e)
    + " (at ref " + ref + ", total " + NatToString(total) + " lines):\n"
  }

  /** The numbered lines `s` through `e` of the file, starting from `s`. */
  function Numbered(all: seq<string>, s: nat, e: nat): (r: seq<string>)
    requires 1 <= s && e <= |all|
    decreases e - s
    ensures |r| == if e < s then 0 else e - s + 1
    ensures forall k :: 0 <= k < |r| ==> r[k] == NumberedLine(s + k, all[s - 1 + k])
  {
    if e < s then [] else Numbered(all, s, e - 1) + [NumberedLine(e, all[e - 1])]
  }

  /** The answer of `view_code`: the window shown, or the two refusals
      whose fixed texts name the file or its length. */
  datatype View = Window(start: nat, end: nat, total: nat, text: string) | Missing | StartPastEnd(lines: nat, first: int)

  /** `view_code` as a value: the window corrected as in `ClampWindow`, a
      start past the last line refused, the end clamped to the file, and the
      lines between a header and two fences, each numbered. Err is a
      timeout of `git show`. */
  function ViewCodeText(path: string, ref: string, startLine: int, endLine: int, shown: Shown): (r: Result<View>)
    ensures shown.Err? <==> r.Err?
    ensures r.Ok? && r.value.Window? ==>
      var w := r.value; 1 <= w.start <= w.end <= w.total && w.end - w.start <= MaxSpan
  {
    match shown
    case Err(e) => Err(e)
    case Ok(None) => Ok(Missing)
    case Ok(Some(content)) =>
      var s0 := if startLine < 1 then 1 else startLine;
      var e1 := if endLine < s0 then s0 else endLine;
      var e0 := if e1 - s0 > MaxSpan then s0 + MaxSpan else e1;
      Ok(ContentView(path, ref, s0, e0, content))
  }

  /** For a file that was read, the view is that of its text for the
      corrected window. */
  lemma TextIsContentView(path: string, ref: string, startLine: int, endLine: int, content: string, s: int, e: int)
    requires s == if startLine < 1 then 1 else startLine
    requires e == if endLine < s then s else if endLine - s > MaxSpan then s + MaxSpan else endLine
    ensures WellClamped(s, e)
    ensures ViewCodeText(path, ref, startLine, endLine, Ok(Some(content))) == Ok(ContentView(path, ref, s, e, content))
  {
  }

  /** The view of a file's text for a corrected window. */
  function ContentView(path: string, ref: string, s0: int, e0: int, content: string): (v: View)
    requires WellClamped(s0, e0)
    ensures v.Window? ==> 1 <= v.start <= v.end <= v.total && v.end - v.start <= MaxSpan
  {
    var all := Split(content, '\n');
    if s0 > |all| then StartPastEnd(|all|, s0)
    else
      var e := if e0 > |all| then |all| else e0;
      Window(s0, e, |all|, Rendered(path, ref, all, s0, e))
  }

  /** The output lines joined: header, fence, numbered lines, fence. */
  function Rendered(path: string, ref: string, all: seq<string>, s: nat, e: nat): string
    requires 1 <= s && e <= |all|
  {
    Join([ShowHeader(path, ref, s, e, |all|), Fence] + Numbered(all, s, e) + [Fence], "\n")
  }

  /** The loop of `view_code` that numbers the lines of the window. */
  method NumberLines(all: seq<string>, s: nat, e: nat) returns (body: seq<string>)
    requires 1 <= s <= e + 1 && e <= |all|
    ensures body == Numbered(all, s, e)
  {
    body := [];
    var i := s;
    while i <= e
      invariant s <= i <= e + 1
      invariant body == Numbered(all, s, i - 1)
    {
      body := body + [NumberedLine(i, all[i - 1])];
      i := i + 1;
    }
  }

  /** `view_code`: corrects the window step by step, then appends one
      numbered line per line of the window to the output list. */
  method ViewCode(path: string, ref: string, startLine: int, endLine: int, shown: Shown) returns (r: Result<View>)
    ensures r == ViewCodeText(path, ref, startLine, endLine, shown)
  {
    var s, e := ClampWindow(startLine, endLine);
    if shown.Err? {
      return Err(shown.why);
    }
    if shown.value.None? {
      return Ok(Missing);
    }
    var content := shown.value.value;
    TextIsContentView(path, ref, startLine, endLine, content, s, e);
    var v := ViewContent(path, ref, s, e, content);
    r := Ok(v);
  }

  /** The rest of `view_code`, once the file's text is known. */
  method ViewContent(path: string, ref: string, s: int, e0: int, content: string) returns (v: View)
    requires WellClamped(s, e0)
    ensures v == ContentView(path, ref, s, e0, content)
  {
    var all := Split(content, '\n');
    if s > |all| {
      return StartPastEnd(|all|, s);
    }
    var e := e0;
    if e > |all| {
      e := |all|;
    }
    var body := NumberLines(all, s, e);
    var output := [ShowHeader(path, ref, s, e, |all|), Fence] + body + [Fence];
    RenderedIs(path, ref, all, s, e, output);
    v := Window(s, e, |all|, Join(output, "\n"));
  }

  lemma RenderedIs(path: string, ref: string, all: seq<string>, s: nat, e: nat, output: seq<string>)
    requires 1 <= s && e <= |all|
    requires output == [ShowHeader(path, ref, s, e, |all|), Fence] + Numbered(all, s, e) + [Fence]
    ensures Join(output, "\n") == Rendered(path, ref, all, s, e)
  {
  }

  /** The window shown keeps the corrected start, ends at the corrected end
      or at the file's last line, whichever comes first, and its text is
      the header, a fence, one numbered line per line of the window in
      order, and a fence. */
  lemma ViewCodeShows(path: string, ref: string, startLine: int, endLine: int, content: string)
    ensures var all := Split(content, '\n');
      var s := if startLine < 1 then 1 else startLine;
      var r := ViewCodeText(path, ref, startLine, endLine, Ok(Some(content)));
      (r == Ok(StartPastEnd(|all|, s)) <==> s > |all|)
      && (s <= |all| ==>
            var w := r.value;
            w.Window? && w.start == s && w.total == |all|
            && w.end == Min(|all|, if endLine < s then s else if endLine - s > MaxSpan then s + MaxSpan else endLine)
            && ShowsNumbered(path, ref, all, w))
  {
    var all := Split(content, '\n');
    var s := if startLine < 1 then 1 else startLine;
    var e := if endLine < s then s else if endLine - s > MaxSpan then s + MaxSpan else endLine;
    TextIsContentView(path, ref, startLine, endLine, content, s, e);
    ContentViewIs(path, ref, s, e, content, all);
    if s <= |all| {
      WindowShows(path, ref, all, ContentView(path, ref, s, e, content));
    }
  }

  /** The view of a text split into `all`, case by case. */
  lemma ContentViewIs(path: string, ref: string, s: int, e: int, content: string, all: seq<string>)
    requires WellClamped(s, e) && all == Split(content, '\n')
    ensures s > |all| ==> ContentView(path, ref, s, e, content) == StartPastEnd(|all|, s)
    ensures s <= |all| ==> ContentView(path, ref, s, e, content) == Window(s, Min(|all|, e), |all|, Rendered(path, ref, all, s, Min(|all|, e)))
  {
  }

  /** The text of window `w` of the lines `all` is the header, a fence,
      one numbered line per line of the window in order, and a fence. */
  ghost predicate ShowsNumbered(path: string, ref: string, all: seq<string>, w: View)
    requires w.Window?
  {
    exists body: seq<string> ::
      |body| == w.end - w.start + 1
      && (forall k :: 0 <= k < |body| ==> 0 <= w.start - 1 + k < |all| && body[k] == NumberedLine(w.start + k, all[w.start - 1 + k]))
      && w.text == Join([ShowHeader(path, ref, w.start, w.end, |all|), Fence] + body + [Fence], "\n")
  }

  /** A window's text is made of the numbered lines of the window. */
  lemma WindowShows(path: string, ref: string, all: seq<string>, w: View)
    requires w.Window? && 1 <= w.start <= w.end <= |all|
    requires w.text == Rendered(path, ref, all, w.start, w.end)
    ensures ShowsNumbered(path, ref, all, w)
  {
    var body := Numbered(all, w.start, w.end);
    assert |body| == w.end - w.start + 1;
  }

  /** The string `view_code` returns for a view: the window's text, or one
      of the two refusals, naming the file and the ref, or the file's
      length and the start asked for. */
  function ViewOutput(path: string, ref: string, v: View): string {
    match v
    case Window(_, _, _, text) => text
    case Missing => "Error: File '" + path + "' not found at ref " + ref
    case StartPastEnd(lines, first) =>
      "Error: File has only " + NatToString(lines) + " lines, but start_line is " + IntToString(first)
  }

  /** The agent tells a refusal from a window by its first word: both
      refusals begin with `Error: `, and a window with its header. */
  lemma ViewOutputKinds(path: string, ref: string, all: seq<string>, v: View)
    requires v.Window? ==> 1 <= v.start && v.end <= |all| && v.text == Rendered(path, ref, all, v.start, v.end)
    ensures StartsWith(ViewOutput(path, ref, v), "Error: ") <==> !v.Window?
    ensures v.Window? ==> StartsWith(ViewOutput(path, ref, v), "Showing " + path + " lines ")
  {
    if v.Window? {
      var h := ShowHeader(path, ref, v.start, v.end, |all|);
      var xs := [h, Fence] + Numbered(all, v.start, v.end) + [Fence];
      assert xs[0] == h && |xs| > 1;
      assert v.text == h + "\n" + Join(xs[1..], "\n");
      var p := "Showing " + path + " lines ";
      assert h[..|p|] == p;
      assert v.text[..|p|] == p;
      assert v.text[0] == 'S';
    } else {
      var r := ViewOutput(path, ref, v);
      assert r[..7] == "Error: ";
    }
  }

  function Min(a: int, b: int): int {
    if a <= b then a else b
  }

  // ---------------------------------------------------------------------
  // locate_symbol

  /** The longest output `locate_symbol` passes on from `git grep`. */
  const MaxOutput := 1000

  /** What `git grep` gave: its standard output when it found the symbol,
      NotFound when it exited non-zero, GrepTimeout when it timed out. */
  datatype Grep = Found(stdout: string) | NotFound | GrepTimeout

  /** `locate_symbol`: the found lines, stripped and cut to `MaxOutput`
      characters; a fixed text when the symbol is not found or the search
      timed out. */
  function LocateSymbol(symbol: string, ref: string, g: Grep): (r: string)
    ensures g.Found? ==> |r| == Min(|Strip(g.stdout)|, MaxOutput) && StartsWith(Strip(g.stdout), r)
    ensures g.Found? && |Strip(g.stdout)| <= MaxOutput ==> r == Strip(g.stdout)
    ensures g.Found? && |Strip(g.stdout)| > MaxOutput ==> r == Strip(g.stdout)[..MaxOutput]
    ensures g.NotFound? ==> r == "The symbol '" + symbol + "' was NOT FOUND in the target kernel at ref " + ref + "."
    ensures g.GrepTimeout? ==> r == "Error: Search timed out for symbol '" + symbol + "'"
  {
    match g
    case Found(out) =>
      var lines := Strip(out);
      if |lines| <= MaxOutput then lines else lines[..MaxOutput]
    case NotFound => "The symbol '" + symbol + "' was NOT FOUND in the target kernel at ref " + ref + "."
    case GrepTimeout => "Error: Search timed out for symbol '" + symbol + "'"
  }
}
