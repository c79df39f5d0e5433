/** The first two pieces of the configuration analyser: `PatchParser`,
    which numbers the added lines of a patch in the new file, and
    `PreprocessorConditionTracker`, which follows the `#if` nesting of
    preprocessed C code. */
module JudgeConfig {
  import opened Results
  import opened Text

  // ---------------------------------------------------------------------
  // PatchParser

  const NewFileHeader := "+++ b/"

  /** `re.search(r'\+(\d+)', line)` from position `k`: the number after the
      first `+` that a digit follows. */
  function PlusNumberFrom(s: string, k: nat): (r: Option<nat>)
    decreases |s| - k
  {
    if k + 1 >= |s| then None
    else if s[k] == '+' && IsDigit(s[k + 1]) then Some(DigitsValue(s[k + 1..DigitEnd(s, k + 1)]))
    else PlusNumberFrom(s, k + 1)
  }

  /** The state of `parse` between two lines: the map it fills, the file
      of the last `+++ b/` line and the running line number. */
  datatype Parser = Parser(files: map<string, set<int>>, current: Option<string>, lineNum: int)

  /** One line of `parse`. A `+++ b/` line starts the file afresh, an `@@`
      line sets the number from its `+N`, an added line records the number
      and counts it when the file is a non-empty name, a removed line does
      nothing, and every other line is counted. */
  function ParseLine(p: Parser, line: string): (r: Parser)
  {
    if StartsWith(line, NewFileHeader) then
      var path := line[|NewFileHeader|..];
      Parser(p.files[path := {}], Some(path), 0)
    else if StartsWith(line, "@@") then
      match PlusNumberFrom(line, 0)
      case Some(n) => p.(lineNum := n)
      case None => p
    else if StartsWith(line, "+") && !StartsWith(line, "+++") then
      if p.current.Some? && p.current.value != [] && p.current.value in p.files then
        Parser(p.files[p.current.value := p.files[p.current.value] + {p.lineNum}], p.current, p.lineNum + 1)
      else p
    else if !StartsWith(line, "-") then p.(lineNum := p.lineNum + 1)
    else p
  }

  /** The lines read one after the other, starting from the map `files`
      the parser already holds. */
  function ParseLines(files: map<string, set<int>>, lines: seq<string>): Parser
  {
    if lines == [] then Parser(files, None, 0)
    else ParseLine(ParseLines(files, lines[..|lines| - 1]), lines[|lines| - 1])
  }

  lemma ParseLinesSnoc(files: map<string, set<int>>, lines: seq<string>, line: string)
    ensures ParseLines(files, lines + [line]) == ParseLine(ParseLines(files, lines), line)
  {
    assert (lines + [line])[..|lines|] == lines;
  }

  /** The paths named by the `+++ b/` lines. */
  function HeaderPaths(lines: seq<string>): set<string>
  {
    set i | 0 <= i < |lines| && StartsWith(lines[i], NewFileHeader) :: lines[i][|NewFileHeader|..]
  }

  lemma HeaderPathsSnoc(lines: seq<string>, line: string)
    ensures HeaderPaths(lines + [line]) == HeaderPaths(lines) + (if StartsWith(line, NewFileHeader) then {line[|NewFileHeader|..]} else {})
  {
    var ls := lines + [line];
    assert forall i :: 0 <= i < |lines| ==> ls[i] == lines[i];
    forall x | x in HeaderPaths(ls)
      ensures x in HeaderPaths(lines) + (if StartsWith(line, NewFileHeader) then {line[|NewFileHeader|..]} else {})
    {
      var i :| 0 <= i < |ls| && StartsWith(ls[i], NewFileHeader) && x == ls[i][|NewFileHeader|..];
      if i < |lines| {
        assert x in HeaderPaths(lines);
      }
    }
    forall x | x in HeaderPaths(lines)
      ensures x in HeaderPaths(ls)
    {
      var i :| 0 <= i < |lines| && StartsWith(lines[i], NewFileHeader) && x == lines[i][|NewFileHeader|..];
      assert ls[i] == lines[i];
    }
    if StartsWith(line, NewFileHeader) {
      assert ls[|lines|] == line;
      assert line[|NewFileHeader|..] in HeaderPaths(ls);
    }
  }

  /** The map has a key for each file it held and each `+++ b/` line, and
      no other; the current file is one of them. */
  lemma {:induction false} ParseLinesKeys(files: map<string, set<int>>, lines: seq<string>)
    ensures var p := ParseLines(files, lines);
      p.files.Keys == files.Keys + HeaderPaths(lines)
      && (p.current.Some? ==> p.current.value in HeaderPaths(lines))
  {
    if lines != [] {
      var init := lines[..|lines| - 1];
      ParseLinesKeys(files, init);
      assert lines == init + [lines[|lines| - 1]];
      HeaderPathsSnoc(init, lines[|lines| - 1]);
    }
  }

  /** Removed lines change nothing, and other lines that are not headers,
      `@@` lines or added lines only count. */
  lemma OtherLinesCount(p: Parser, line: string)
    requires !StartsWith(line, "+") && !StartsWith(line, "@@")
    ensures ParseLine(p, line) == if StartsWith(line, "-") then p else p.(lineNum := p.lineNum + 1)
  {
  }

  /** The integers `a` to `a + len - 1`. */
  function Span(a: int, len: nat): (r: set<int>)
    ensures forall n :: n in r <==> a <= n < a + len
  {
    if len == 0 then {} else Span(a, len - 1) + {a + len - 1}
  }

  /** One added line with a named file: its number is recorded and counted. */
  lemma AddedLine(q: Parser, line: string)
    requires q.current.Some? && q.current.value != [] && q.current.value in q.files
    requires StartsWith(line, "+") && !StartsWith(line, "+++")
    ensures var path := q.current.value;
      ParseLine(q, line) == Parser(q.files[path := q.files[path] + {q.lineNum}], q.current, q.lineNum + 1)
  {
    assert line[0] == '+';
    assert NewFileHeader[..3] == "+++";
  }

  /** A run of added lines after a header records the consecutive numbers
      from the running one, and moves it on by the length of the run. */
  lemma {:induction false} AddedRun(files: map<string, set<int>>, pre: seq<string>, added: seq<string>)
    requires var p := ParseLines(files, pre); p.current.Some? && p.current.value != [] && p.current.value in p.files
    requires forall i :: 0 <= i < |added| ==> StartsWith(added[i], "+") && !StartsWith(added[i], "+++")
    ensures var p := ParseLines(files, pre); var q := ParseLines(files, pre + added);
      var path := p.current.value;
      q.current == p.current && q.lineNum == p.lineNum + |added|
      && q.files == p.files[path := p.files[path] + Span(p.lineNum, |added|)]
  {
    var p := ParseLines(files, pre);
    if added == [] {
      assert pre + added == pre;
      assert Span(p.lineNum, 0) == {};
      assert p.files[p.current.value] + Span(p.lineNum, 0) == p.files[p.current.value];
      assert p.files[p.current.value := p.files[p.current.value] + Span(p.lineNum, 0)] == p.files;
    } else {
      var init := added[..|added| - 1];
      var last := added[|added| - 1];
      AddedRun(files, pre, init);
      SnocSplit(pre, added);
      ParseLinesSnoc(files, pre + init, last);
      AddedRunStep(p, ParseLines(files, pre + init), last, |init|);
    }
  }

  lemma SnocSplit(pre: seq<string>, added: seq<string>)
    requires added != []
    ensures pre + added == (pre + added[..|added| - 1]) + [added[|added| - 1]]
  {
    assert added == added[..|added| - 1] + [added[|added| - 1]];
  }

  lemma AddedRunStep(p: Parser, q0: Parser, last: string, n: nat)
    requires p.current.Some? && p.current.value != [] && p.current.value in p.files
    requires q0.current == p.current && q0.lineNum == p.lineNum + n
    requires q0.files == p.files[p.current.value := p.files[p.current.value] + Span(p.lineNum, n)]
    requires StartsWith(last, "+") && !StartsWith(last, "+++")
    ensures var q := ParseLine(q0, last); var path := p.current.value;
      q.current == p.current && q.lineNum == p.lineNum + n + 1
      && q.files == p.files[path := p.files[path] + Span(p.lineNum, n + 1)]
  {
    AddedLine(q0, last);
    var path := p.current.value;
    assert Span(p.lineNum, n + 1) == Span(p.lineNum, n) + {q0.lineNum};
    assert q0.files[path] + {q0.lineNum} == p.files[path] + Span(p.lineNum, n + 1);
  }

  /** A line read on top of a map `f` (the state `e` with its entries laid
      over those of `f`) goes as the same line read in `e`, with `f` left
      underneath. */
  lemma OverrideStep(f: map<string, set<int>>, e: Parser, line: string)
    requires e.current.Some? ==> e.current.value in e.files
    ensures var e1 := ParseLine(e, line);
      ParseLine(e.(files := f + e.files), line) == e1.(files := f + e1.files)
      && (e1.current.Some? ==> e1.current.value in e1.files)
  {
    if StartsWith(line, NewFileHeader) {
      var path := line[|NewFileHeader|..];
      assert (f + e.files)[path := {}] == f + e.files[path := {}];
    } else if StartsWith(line, "@@") {
    } else if StartsWith(line, "+") && !StartsWith(line, "+++") {
      if e.current.Some? && e.current.value != [] {
        var c := e.current.value;
        assert (f + e.files)[c] == e.files[c];
        assert (f + e.files)[c := e.files[c] + {e.lineNum}] == f + e.files[c := e.files[c] + {e.lineNum}];
      }
    }
  }

  /** `parse` from a map `f` the parser already holds gives `f` updated by
      what the parse from an empty map gives: the files the patch names are
      replaced, every other entry is kept. */
  lemma {:induction false} ParseOverrides(f: map<string, set<int>>, lines: seq<string>)
    ensures var e := ParseLines(map[], lines);
      ParseLines(f, lines) == e.(files := f + e.files)
      && (e.current.Some? ==> e.current.value in e.files)
  {
    if lines == [] {
      assert f + map[] == f;
    } else {
      var init := lines[..|lines| - 1];
      ParseOverrides(f, init);
      OverrideStep(f, ParseLines(map[], init), lines[|lines| - 1]);
    }
  }

  /** Parsing again from the map a parse produced gives the same map: a
      second call of `parse` on the same parser changes nothing. */
  lemma ParseIdempotent(f: map<string, set<int>>, lines: seq<string>)
    ensures var once := ParseLines(f, lines).files; ParseLines(once, lines).files == once
  {
    var e := ParseLines(map[], lines).files;
    ParseOverrides(f, lines);
    ParseOverrides(f + e, lines);
    assert (f + e) + e == f + e;
  }

  /** `PatchParser`: the patch text and the map `parse` fills. */
  class PatchParser {
    const patchContent: string
    var filesChanged: map<string, set<int>>

    constructor(patchContent: string)
      ensures this.patchContent == patchContent && filesChanged == map[]
    {
      this.patchContent := patchContent;
      filesChanged := map[];
    }

    /** `parse`: the per-line loop over `splitlines()`, on the map the
        parser holds. */
    method Parse() returns (r: map<string, set<int>>)
      modifies this
      ensures filesChanged == ParseLines(old(filesChanged), SplitLines(patchContent)).files
      ensures r == filesChanged
    {
      var lines := SplitLines(patchContent);
      var current: Option<string> := None;
      var lineNum := 0;
      var i := 0;
      while i < |lines|
        invariant i <= |lines|
        invariant ParseLines(old(filesChanged), lines[..i]) == Parser(filesChanged, current, lineNum)
      {
        assert lines[..i + 1][..i] == lines[..i];
        var line := lines[i];
        if StartsWith(line, NewFileHeader) {
          current := Some(line[|NewFileHeader|..]);
          filesChanged := filesChanged[current.value := {}];
          lineNum := 0;
        } else if StartsWith(line, "@@") {
          var m := PlusNumberFrom(line, 0);
          if m.Some? {
            lineNum := m.value;
          }
        } else if StartsWith(line, "+") && !StartsWith(line, "+++") {
          if current.Some? && current.value != [] && current.value in filesChanged {
            filesChanged := filesChanged[current.value := filesChanged[current.value] + {lineNum}];
            lineNum := lineNum + 1;
          }
        } else if !StartsWith(line, "-") {
          lineNum := lineNum + 1;
        }
        i := i + 1;
      }
      assert lines[..i] == lines;
      r := filesChanged;
    }
  }

  // ---------------------------------------------------------------------
  // PreprocessorConditionTracker

  predicate IsIf(line: string) { StartsWith(line, "#if") }
  predicate IsElif(line: string) { StartsWith(line, "#elif") }
  predicate IsElse(line: string) { StartsWith(line, "#else") }
  predicate IsEndif(line: string) { StartsWith(line, "#endif") }

  /** A line the tracker treats as a conditional directive. */
  predicate IsConditional(line: string) {
    IsIf(line) || IsElif(line) || IsElse(line) || IsEndif(line)
  }

  /** The condition of an `#else` branch: `!(cond)`, where `cond` is the
      last condition without its first three characters, stripped. */
  function Negated(last: string): string {
    "!(" + Strip(if |last| >= 3 then last[3..] else []) + ")"
  }

  /** The stack with its top replaced by `c`; an empty stack is left alone. */
  function ReplaceTop(stack: seq<string>, c: string): (r: seq<string>)
    ensures |r| == |stack|
  {
    if stack == [] then [] else stack[..|stack| - 1] + [c]
  }

  function Pop(stack: seq<string>): (r: seq<string>)
    ensures |r| == if stack == [] then 0 else |stack| - 1
  {
    if stack == [] then [] else stack[..|stack| - 1]
  }

  /** The condition stack after one stripped line: `#if...` pushes,
      `#elif` pops (when it can) and pushes the line with `elif` made
      `if`, `#else` negates the top, `#endif` pops; nothing else changes
      it, and no line fails. */
  function TrackStack(stack: seq<string>, line: string): seq<string>
  {
    if IsIf(line) then stack + [line]
    else if IsElif(line) then Pop(stack) + [Replace(line, "elif", "if")]
    else if IsElse(line) then (if stack == [] then [] else ReplaceTop(stack, Negated(stack[|stack| - 1])))
    else if IsEndif(line) then Pop(stack)
    else stack
  }

  /** The depth after each kind of line. */
  lemma TrackDepth(stack: seq<string>, line: string)
    ensures var d := |TrackStack(stack, line)|;
      (IsIf(line) ==> d == |stack| + 1)
      && (!IsIf(line) && IsElif(line) ==> d == if stack == [] then 1 else |stack|)
      && (!IsIf(line) && !IsElif(line) && IsElse(line) ==> d == |stack|)
      && (!IsIf(line) && !IsElif(line) && !IsElse(line) && IsEndif(line) ==> d == if stack == [] then 0 else |stack| - 1)
      && (!IsConditional(line) ==> d == |stack|)
  {
  }

  /** An `#if` closed by an `#endif` leaves the stack as it was. */
  lemma IfEndifRestores(stack: seq<string>, open: string, close: string)
    requires IsIf(open) && IsEndif(close)
    ensures TrackStack(TrackStack(stack, open), close) == stack
  {
    assert close[..6] == "#endif";
    assert !IsIf(close) by {
      assert close[2] == "#endif"[2];
    }
    assert !IsElif(close) && !IsElse(close) by {
      assert close[..5] == "#endi";
    }
    assert (stack + [open])[..|stack|] == stack;
  }

  /** The condition an `#elif` pushes reads as an `#if`. */
  lemma ElifPushesIf(line: string)
    requires IsElif(line)
    ensures IsIf(Replace(line, "elif", "if"))
  {
    var rest := line[5..];
    assert line == "#" + ("elif" + rest);
    assert line[..5] == "#elif";
    assert line[..4] == "#eli";
    assert Replace(line, "elif", "if") == "#" + Replace(line[1..], "elif", "if");
    assert line[1..][..4] == "elif";
    assert Replace(line[1..], "elif", "if") == "if" + Replace(line[5..], "elif", "if");
  }

  /** The mapping after one line: a line that is no conditional directive
      and no `#line` marker stores a copy of the (unchanged) stack under its
      source line, when one is given and the stack is not empty. */
  function TrackRecord(m: map<int, seq<string>>, stack: seq<string>, line: string, sourceLine: Option<int>): map<int, seq<string>>
  {
    if IsConditional(line) || sourceLine.None? || StartsWith(line, "#line") || stack == [] then m
    else m[sourceLine.value := stack]
  }

  /** `PreprocessorConditionTracker`. */
  class ConditionTracker {
    var conditionStack: seq<string>
    var lineToConditions: map<int, seq<string>>

    constructor()
      ensures conditionStack == [] && lineToConditions == map[]
    {
      conditionStack := [];
      lineToConditions := map[];
    }

    /** `process_line`. The source line it counts on is a local copy, so
        the increment (and the number a `#line` marker gives) is lost when
        it returns. */
    method ProcessLine(line: string, sourceLine: Option<int>)
      modifies this
      ensures conditionStack == TrackStack(old(conditionStack), Strip(line))
      ensures lineToConditions == TrackRecord(old(lineToConditions), old(conditionStack), Strip(line), sourceLine)
    {
      var l := Strip(line);
      if IsConditional(l) {
        assert TrackRecord(lineToConditions, conditionStack, l, sourceLine) == lineToConditions;
      }
      if IsIf(l) {
        conditionStack := conditionStack + [l];
      } else if IsElif(l) {
        if conditionStack != [] {
          conditionStack := conditionStack[..|conditionStack| - 1];
        }
        conditionStack := conditionStack + [Replace(l, "elif", "if")];
      } else if IsElse(l) {
        if conditionStack != [] {
          var last := conditionStack[|conditionStack| - 1];
          conditionStack := conditionStack[..|conditionStack| - 1] + [Negated(last)];
        }
      } else if IsEndif(l) {
        if conditionStack != [] {
          conditionStack := conditionStack[..|conditionStack| - 1];
        }
      } else if sourceLine.Some? {
        if !StartsWith(l, "#line") && conditionStack != [] {
          lineToConditions := lineToConditions[sourceLine.value := conditionStack];
        }
      }
    }

    /** `get_conditions_for_line`: the stored stack, empty when there is none. */
    function ConditionsForLine(lineNum: int): (r: seq<string>)
      reads this
      ensures lineNum in lineToConditions ==> r == lineToConditions[lineNum]
      ensures lineNum !in lineToConditions ==> r == []
    {
      if lineNum in lineToConditions then lineToConditions[lineNum] else []
    }
  }
}
