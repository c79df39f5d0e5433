/** `SourceAnalyzer`: where a C file of the kernel tree gets its CONFIG
    options from. Either the Makefile that builds it names a CONFIG symbol
    for its object file, or the `#if` conditions around the changed lines
    do. File contents come in as values: the Makefiles of the directories
    from the file's own upwards, and the lines of the source file. */
module SourceAnalyzer {
  import opened Results
  import opened Text
  import opened ConfigNames
  import opened JudgeConfig

  // ---------------------------------------------------------------------
  // `_parse_makefile_for_config`

  /** `if current_config:`, the Python truthiness of the conditional context. */
  predicate Truthy(o: Option<string>) {
    o.Some? && o.value != []
  }

  /** The continuation scans: from line `j` on, the first line (as it
      stands, not stripped) that holds `needle` ends the scan with success,
      and the first line whose stripped form does not end in a backslash
      ends it without. */
  function ContinuationHas(lines: seq<string>, j: nat, needle: string): (r: bool)
    decreases |lines| - j
    ensures r ==> exists k :: j <= k < |lines| && Contains(lines[k], needle)
  {
    if j >= |lines| then false
    else if Contains(lines[j], needle) then true
    else if !EndsWith(Strip(lines[j]), "\\") then false
    else ContinuationHas(lines, j + 1, needle)
  }

  /** Every line from `j` up to `k` is continued by a backslash. */
  ghost predicate ContinuedTo(lines: seq<string>, j: nat, k: nat)
    requires k <= |lines|
  {
    forall m :: j <= m < k ==> EndsWith(Strip(lines[m]), "\\")
  }

  /** The scan succeeds exactly when some line from `j` on holds `needle`
      and every line before it, from `j`, is continued by a backslash. */
  lemma {:induction false} ContinuationHasIff(lines: seq<string>, j: nat, needle: string)
    decreases |lines| - j
    ensures ContinuationHas(lines, j, needle) <==>
      exists k :: j <= k < |lines| && Contains(lines[k], needle) && ContinuedTo(lines, j, k)
  {
    if j >= |lines| {
    } else if Contains(lines[j], needle) {
      assert ContinuedTo(lines, j, j);
    } else if !EndsWith(Strip(lines[j]), "\\") {
      forall k | j <= k < |lines| && Contains(lines[k], needle)
        ensures !ContinuedTo(lines, j, k)
      {
        assert j < k;
      }
    } else {
      ContinuationHasIff(lines, j + 1, needle);
      if ContinuationHas(lines, j + 1, needle) {
        var k :| j + 1 <= k < |lines| && Contains(lines[k], needle) && ContinuedTo(lines, j + 1, k);
        assert ContinuedTo(lines, j, k);
      } else {
        forall k | j <= k < |lines| && Contains(lines[k], needle)
          ensures !ContinuedTo(lines, j, k)
        {
          assert ContinuedTo(lines, j, k) ==> ContinuedTo(lines, j + 1, k);
        }
      }
    }
  }

  /** The test that a line adds to a composite object. The two tests on the
      line with its spaces removed look for a pattern that has a space in
      it, so they never hold (`SpacelessTestsNeverHold`). */
  predicate IsCompositeLine(line: string) {
    var spaceless := Replace(line, " ", "");
    Contains(line, "-y +=") || Contains(spaceless, "-y +=")
    || Contains(line, "-objs +=") || Contains(spaceless, "-objs +=")
  }

  lemma SpacelessTestsNeverHold(line: string)
    ensures !Contains(Replace(line, " ", ""), "-y +=") && !Contains(Replace(line, " ", ""), "-objs +=")
  {
    ReplaceRemovesPattern(line, " ");
    NoSpaceNoPattern(Replace(line, " ", ""), "-y +=", 2);
    NoSpaceNoPattern(Replace(line, " ", ""), "-objs +=", 5);
  }

  /** A string without a space holds no pattern with a space in it. */
  lemma NoSpaceNoPattern(x: string, pat: string, i: nat)
    requires !Contains(x, " ") && i < |pat| && pat[i] == ' '
    ensures !Contains(x, pat)
  {
    if Contains(x, pat) {
      var k := Find(x, pat, 0);
      assert x[k + i] == pat[i];
      assert x[k + i..k + i + 1] == " ";
      ContainsAt(x, " ", k + i);
    }
  }

  /** The end of the run of `[a-zA-Z0-9_]` that starts at `i`. */
  function WordEnd(s: string, i: nat): (r: nat)
    requires i <= |s|
    decreases |s| - i
    ensures i <= r <= |s|
    ensures forall k :: i <= k < r ==> IsWordChar(s[k])
    ensures r < |s| ==> !IsWordChar(s[r])
  {
    if i < |s| && IsWordChar(s[i]) then WordEnd(s, i + 1) else i
  }

  /** `re.match(r'([a-zA-Z0-9_]+)-(?:y|objs)\s*\+=', line)`, its group: the
      word at the start of the line, then `-y` or `-objs`, optional
      whitespace and `+=`. No backtracking can help: the word cannot take a
      `-`, and `y` and `objs` start with different letters. */
  function CompositeName(line: string): (r: Option<string>)
    ensures r.Some? ==> r.value != [] && StartsWith(line, r.value)
  {
    var e := WordEnd(line, 0);
    if e == 0 || e >= |line| || line[e] != '-' then None
    else
      var k := e + 1;
      var after :=
        if OccursAt(line, "y", k) then Some(k + 1)
        else if OccursAt(line, "objs", k) then Some(k + 4)
        else None;
      if after.Some? && OccursAt(line, "+=", SkipForward(line, after.value, None)) then Some(line[..e])
      else None
  }

  /** The end of the first pass: the CONFIG found (or none) at the line
      that names the object; the composite object whose continuation lines
      name it, with the conditional context at that point; or no hit. */
  datatype FirstPass = Hit(config: Option<string>) | Composite(name: string, context: Option<string>) | NoHit

  /** The first pass over the lines from `i`, with conditional context
      `current`. `ifneq`/`ifdef` lines with a `$(CONFIG_...)` set the
      context, `endif` clears it, a line naming the target with an `=`
      ends the pass with its own CONFIG or the context, and a continued
      line ends it when its continuation names the target and the line is
      a composite definition or carries a CONFIG. */
  function Pass1(lines: seq<string>, target: string, i: nat, current: Option<string>): FirstPass
    decreases |lines| - i
  {
    if i >= |lines| then NoHit
    else
      var line := Strip(lines[i]);
      if StartsWith(line, "ifneq") || StartsWith(line, "ifdef") then
        Pass1(lines, target, i + 1, if MakeVar(line).Some? then MakeVar(line) else current)
      else if StartsWith(line, "endif") then Pass1(lines, target, i + 1, None)
      else if Contains(line, target) then
        if Contains(line, "+=") || Contains(line, "=") then
          Hit(if MakeVar(line).Some? then MakeVar(line) else if Truthy(current) then current else None)
        else Pass1(lines, target, i + 1, current)
      else if EndsWith(line, "\\") && i + 1 < |lines| then
        if IsCompositeLine(line) && CompositeName(line).Some? && ContinuationHas(lines, i + 1, target) then
          Composite(CompositeName(line).value, current)
        else if MakeVar(line).Some? && ContinuationHas(lines, i + 1, target) then Hit(MakeVar(line))
        else Pass1(lines, target, i + 1, current)
      else Pass1(lines, target, i + 1, current)
  }

  /** The second pass, for `<composite>.o`, from line `i`, with the context
      the first pass left; it never changes the context. */
  function Pass2(lines: seq<string>, target: string, i: nat, current: Option<string>): Option<string>
    decreases |lines| - i
  {
    if i >= |lines| then None
    else
      var line := Strip(lines[i]);
      if Contains(line, target) then
        if MakeVar(line).Some? then MakeVar(line)
        else if Truthy(current) then current
        else Pass2(lines, target, i + 1, current)
      else if EndsWith(line, "\\") && i + 1 < |lines| && MakeVar(line).Some? && ContinuationHas(lines, i + 1, target) then
        MakeVar(line)
      else Pass2(lines, target, i + 1, current)
  }

  /** What `_parse_makefile_for_config` finds for `objName`: the first
      pass, then the second pass only for a composite object. */
  function MakefileConfig(lines: seq<string>, objName: string): (r: Option<string>)
    ensures r.Some? ==> r.value != []
  {
    match Pass1(lines, objName, 0, None)
    case Hit(c) => HitNonEmpty(lines, objName, 0, None); c
    case NoHit => None
    case Composite(name, context) => Pass2NonEmpty(lines, name + ".o", 0, context); Pass2(lines, name + ".o", 0, context)
  }

  /** Every CONFIG the passes report is a `$(CONFIG_...)` name of a line or
      a truthy context, so never the empty name. */
  lemma {:induction false} HitNonEmpty(lines: seq<string>, target: string, i: nat, current: Option<string>)
    requires current.Some? ==> IsConfigName(current.value)
    ensures NamesConfigs(Pass1(lines, target, i, current))
    decreases |lines| - i
  {
    if i < |lines| {
      var line := Strip(lines[i]);
      if StartsWith(line, "ifneq") || StartsWith(line, "ifdef") {
        HitNonEmpty(lines, target, i + 1, if MakeVar(line).Some? then MakeVar(line) else current);
      } else if StartsWith(line, "endif") {
        HitNonEmpty(lines, target, i + 1, None);
      } else {
        HitNonEmpty(lines, target, i + 1, current);
      }
    }
  }

  /** The CONFIG names a first pass reports are CONFIG names. */
  predicate NamesConfigs(r: FirstPass) {
    (r.Hit? && r.config.Some? ==> IsConfigName(r.config.value))
    && (r.Composite? && r.context.Some? ==> IsConfigName(r.context.value))
  }

  lemma {:induction false} Pass2NonEmpty(lines: seq<string>, target: string, i: nat, current: Option<string>)
    ensures Pass2(lines, target, i, current).Some? ==> Pass2(lines, target, i, current).value != []
    decreases |lines| - i
  {
    if i < |lines| {
      Pass2NonEmpty(lines, target, i + 1, current);
    }
  }

  /** A Makefile whose first line reads `obj-$(CONFIG_X) += <obj>` gives
      `CONFIG_X`. */
  lemma DirectHit(name: string, objName: string, rest: seq<string>)
    requires IsConfigName(name)
    requires objName != [] && !IsSpace(objName[|objName| - 1])
    ensures MakefileConfig(["obj-$(" + name + ") += " + objName] + rest, objName) == Some(name)
  {
    var line := "obj-$(" + name + ") += " + objName;
    var lines := [line] + rest;
    DirectLineShape(name, objName);
    DirectLine(name, objName);
    assert lines[0] == line;
    assert Pass1(lines, objName, 0, None) == Hit(Some(name));
  }

  /** What the first pass tests of such a line. */
  lemma DirectLine(name: string, objName: string)
    requires IsConfigName(name)
    requires objName != [] && !IsSpace(objName[|objName| - 1])
    ensures var line := "obj-$(" + name + ") += " + objName;
      Contains(line, objName) && Contains(line, "+=") && MakeVar(line) == Some(name)
  {
    HeadThenObject("obj-$(" + name + ") += ", objName);
    MakeVarHead(name, objName);
  }

  /** A line `head + objName` whose head ends in `+= ` holds both. */
  lemma HeadThenObject(head: string, objName: string)
    requires |head| >= 3 && head[|head| - 3..] == "+= "
    ensures Contains(head + objName, objName) && Contains(head + objName, "+=")
  {
    var line := head + objName;
    assert OccursAt(line, objName, |head|);
    ContainsAt(line, objName, |head|);
    assert OccursAt(head, "+=", |head| - 3);
    ContainsAt(head, "+=", |head| - 3);
    ContainedInConcat([], head, objName, "+=");
    assert [] + head + objName == line;
  }

  lemma DirectLineShape(name: string, objName: string)
    requires objName != [] && !IsSpace(objName[|objName| - 1])
    ensures var line := "obj-$(" + name + ") += " + objName;
      Strip(line) == line
      && !StartsWith(line, "ifneq") && !StartsWith(line, "ifdef") && !StartsWith(line, "endif")
  {
    var line := "obj-$(" + name + ") += " + objName;
    assert line[0] == 'o' && line[|line| - 1] == objName[|objName| - 1];
    StripUnchanged(line);
    assert line[..5] == "obj-$";
  }

  /** `$(CONFIG_X)` after `obj-` is the first make variable of the line. */
  lemma MakeVarHead(name: string, objName: string)
    requires IsConfigName(name)
    ensures MakeVar("obj-$(" + name + ") += " + objName) == Some(name)
  {
    var s := "obj-$(" + name + ") += " + objName;
    assert s[6 + |name|] == ')';
    assert s[..6] == "obj-$(";
    assert s[4..6] == "$(";
    assert s[6..6 + |name|] == name;
    MakeVarAt(s, 4, name);
    MakeVarSkip(s, 0, 4);
  }

  /** `_parse_makefile_for_config`: the set it returns holds at most the
      one CONFIG of `MakefileConfig`. */
  method ParseMakefileForConfig(content: string, objName: string) returns (configs: set<string>)
    ensures configs == if MakefileConfig(SplitLines(content), objName).Some? then {MakefileConfig(SplitLines(content), objName).value} else {}
    ensures |configs| <= 1
  {
    var lines := SplitLines(content);
    var first := FirstPassLoop(lines, objName);
    var found: Option<string> := None;
    match first {
      case Hit(c) => found := c;
      case NoHit =>
      case Composite(name, context) => found := SecondPassLoop(lines, name + ".o", context);
    }
    configs := if found.Some? then {found.value} else {};
  }

  /** The continuation loop of both passes. */
  method ScanContinuation(lines: seq<string>, start: nat, needle: string) returns (found: bool)
    ensures found == ContinuationHas(lines, start, needle)
  {
    var j := start;
    while j < |lines|
      invariant start <= j
      invariant ContinuationHas(lines, j, needle) == ContinuationHas(lines, start, needle)
      decreases |lines| - j
    {
      if Contains(lines[j], needle) {
        return true;
      }
      if !EndsWith(Strip(lines[j]), "\\") {
        return false;
      }
      j := j + 1;
    }
    return false;
  }

  /** The first `while i < len(lines)` loop of `_parse_makefile_for_config`. */
  method FirstPassLoop(lines: seq<string>, target: string) returns (r: FirstPass)
    ensures r == Pass1(lines, target, 0, None)
  {
    var current: Option<string> := None;
    var i := 0;
    while i < |lines|
      invariant Pass1(lines, target, i, current) == Pass1(lines, target, 0, None)
      decreases |lines| - i
    {
      var line := Strip(lines[i]);
      if StartsWith(line, "ifneq") || StartsWith(line, "ifdef") {
        var m := MakeVar(line);
        if m.Some? {
          current := m;
        }
      } else if StartsWith(line, "endif") {
        current := None;
      } else if Contains(line, target) {
        if Contains(line, "+=") || Contains(line, "=") {
          var m := MakeVar(line);
          if m.Some? {
            return Hit(m);
          } else if Truthy(current) {
            return Hit(current);
          }
          return Hit(None);
        }
      } else if EndsWith(line, "\\") && i + 1 < |lines| {
        if IsCompositeLine(line) {
          var name := CompositeName(line);
          if name.Some? {
            var found := ScanContinuation(lines, i + 1, target);
            if found {
              return Composite(name.value, current);
            }
          }
        }
        var m := MakeVar(line);
        if m.Some? {
          var found := ScanContinuation(lines, i + 1, target);
          if found {
            return Hit(m);
          }
        }
      }
      i := i + 1;
    }
    return NoHit;
  }

  /** The second loop, for the composite object's `.o` name. */
  method SecondPassLoop(lines: seq<string>, target: string, current: Option<string>) returns (r: Option<string>)
    ensures r == Pass2(lines, target, 0, current)
  {
    var i := 0;
    while i < |lines|
      invariant Pass2(lines, target, i, current) == Pass2(lines, target, 0, current)
      decreases |lines| - i
    {
      var line := Strip(lines[i]);
      if Contains(line, target) {
        var m := MakeVar(line);
        if m.Some? {
          return m;
        } else if Truthy(current) {
          return current;
        }
      } else if EndsWith(line, "\\") && i + 1 < |lines| {
        var m := MakeVar(line);
        if m.Some? {
          var found := ScanContinuation(lines, i + 1, target);
          if found {
            return m;
          }
        }
      }
      i := i + 1;
    }
    return None;
  }

  // ---------------------------------------------------------------------
  // `extract_config_from_makefile`

  /** `s.rfind(c)`. */
  function LastIndexOf(s: string, c: char): (r: int)
    ensures -1 <= r < |s|
    ensures r >= 0 ==> s[r] == c
    ensures forall k :: r < k < |s| ==> s[k] != c
  {
    if s == [] then -1
    else if s[|s| - 1] == c then |s| - 1
    else LastIndexOf(s[..|s| - 1], c)
  }

  /** The last component of a relative path. */
  function BaseName(path: string): string
  {
    path[LastIndexOf(path, '/') + 1..]
  }

  /** `rfind` finds the occurrence that no other follows. */
  lemma LastIndexOfAt(s: string, c: char, i: nat)
    requires i < |s| && s[i] == c
    requires forall k :: i < k < |s| ==> s[k] != c
    ensures LastIndexOf(s, c) == i
    decreases |s|
  {
    if i < |s| - 1 {
      LastIndexOfAt(s[..|s| - 1], c, i);
    }
  }

  /** `PurePath.stem`: the name without its last suffix, where a suffix
      needs a dot that is neither the first nor the last character. */
  function Stem(name: string): string
  {
    var i := LastIndexOf(name, '.');
    if 0 < i < |name| - 1 then name[..i] else name
  }

  /** `source_path.stem + '.o'`. */
  function ObjName(sourceFile: string): string
  {
    Stem(BaseName(sourceFile)) + ".o"
  }

  /** A C file `dir/name.c` is built as `name.o`. */
  lemma ObjNameOfSource(dir: string, stem: string, ext: string)
    requires stem != [] && '/' !in stem
    requires ext != [] && '/' !in ext && '.' !in ext
    ensures ObjName(dir + "/" + stem + "." + ext) == stem + ".o"
  {
    var name := stem + "." + ext;
    assert dir + "/" + stem + "." + ext == dir + "/" + name;
    assert '/' !in name by {
      assert forall k :: 0 <= k < |name| ==> name[k] == (if k < |stem| then stem[k] else if k == |stem| then '.' else ext[k - |stem| - 1]);
    }
    BaseNameAfterSlash(dir, name);
    StemOfName(stem, ext);
  }

  lemma BaseNameAfterSlash(dir: string, name: string)
    requires '/' !in name
    ensures BaseName(dir + "/" + name) == name
  {
    var path := dir + "/" + name;
    assert path[|dir|] == '/';
    assert forall k :: |dir| < k < |path| ==> path[k] == name[k - |dir| - 1];
    LastIndexOfAt(path, '/', |dir|);
    assert path[|dir| + 1..] == name;
  }

  lemma StemOfName(stem: string, ext: string)
    requires stem != []
    requires ext != [] && '.' !in ext
    ensures Stem(stem + "." + ext) == stem
  {
    var name := stem + "." + ext;
    assert name[|stem|] == '.';
    assert forall k :: |stem| < k < |name| ==> name[k] == ext[k - |stem| - 1];
    LastIndexOfAt(name, '.', |stem|);
    assert name[..|stem|] == stem;
  }

  /** At most this many directories are searched. */
  const MaxDepth := 5

  /** What each listed directory's Makefile gives: `makefiles[d]` is the
      Makefile of the d-th directory up from the file's own, None when it
      does not exist or cannot be read; only the directories below the
      tree's root are listed. */
  function DirConfigs(makefiles: seq<Option<string>>, objName: string): (r: seq<Option<string>>)
    ensures |r| == |makefiles|
    ensures forall d :: 0 <= d < |r| ==>
      r[d] == if makefiles[d].Some? then MakefileConfig(SplitLines(makefiles[d].value), objName) else None
  {
    seq(|makefiles|, d requires 0 <= d < |makefiles| =>
      if makefiles[d].Some? then MakefileConfig(SplitLines(makefiles[d].value), objName) else None)
  }

  /** The first CONFIG of `found` from index `depth` on, looking at no more
      than `MaxDepth` entries in all. */
  function FirstConfig(found: seq<Option<string>>, depth: nat): Option<string>
    decreases MaxDepth - depth
  {
    if depth >= |found| || depth >= MaxDepth then None
    else if found[depth].Some? then found[depth]
    else FirstConfig(found, depth + 1)
  }

  /** The search stops at the first entry that holds a CONFIG, and finds
      nothing exactly when no entry within reach holds one. */
  lemma {:induction false} FirstConfigIsFirst(found: seq<Option<string>>, depth: nat)
    decreases MaxDepth - depth
    ensures FirstConfig(found, depth).None? <==> forall d :: depth <= d < |found| && d < MaxDepth ==> found[d].None?
    ensures FirstConfig(found, depth).Some? ==>
      exists d :: depth <= d < |found| && d < MaxDepth && found[d] == FirstConfig(found, depth)
        && forall e :: depth <= e < d ==> found[e].None?
  {
    if depth < |found| && depth < MaxDepth && found[depth].None? {
      FirstConfigIsFirst(found, depth + 1);
      if FirstConfig(found, depth).Some? {
        var d :| depth + 1 <= d < |found| && d < MaxDepth && found[d] == FirstConfig(found, depth + 1)
          && forall e :: depth + 1 <= e < d ==> found[e].None?;
        assert forall e :: depth <= e < d ==> found[e].None?;
      }
    }
  }

  /** The first CONFIG a Makefile gives, searching the directories from
      `depth` upwards. */
  function MakefileSearch(makefiles: seq<Option<string>>, objName: string, depth: nat): (r: Option<string>)
    ensures r.Some? ==> r.value != []
  {
    var found := DirConfigs(makefiles, objName);
    FirstConfigIsFirst(found, depth);
    FirstConfig(found, depth)
  }

  /** `extract_config_from_makefile`: the walk up the directories, which
      stops at the first Makefile that names a CONFIG. */
  method ExtractConfigFromMakefile(sourceFile: string, makefiles: seq<Option<string>>) returns (configs: set<string>)
    ensures var r := MakefileSearch(makefiles, ObjName(sourceFile), 0);
      configs == if r.Some? then {r.value} else {}
  {
    configs := {};
    var objName := ObjName(sourceFile);
    ghost var found := DirConfigs(makefiles, objName);
    var depth := 0;
    while depth < |makefiles| && depth < MaxDepth
      invariant FirstConfig(found, depth) == FirstConfig(found, 0)
      decreases MaxDepth - depth
    {
      if makefiles[depth].Some? {
        var c := ParseMakefileForConfig(makefiles[depth].value, objName);
        assert found[depth] == MakefileConfig(SplitLines(makefiles[depth].value), objName);
        if c != {} {
          configs := c;
          return;
        }
      }
      assert found[depth].None?;
      depth := depth + 1;
    }
  }

  // ---------------------------------------------------------------------
  // `extract_config_conditions`

  /** The source scan's state: its stack and the stacks recorded per line. */
  datatype Scan = Scan(stack: seq<string>, marks: map<int, seq<string>>)

  /** The stack of the source scan after a stripped line: unlike the
      tracker, `#elif` pushes without popping. */
  function ScanStack(stack: seq<string>, l: string): seq<string>
  {
    if IsIf(l) || IsElif(l) then stack + [l]
    else if IsElse(l) then (if stack == [] then [] else ReplaceTop(stack, Negated(stack[|stack| - 1])))
    else if IsEndif(l) then Pop(stack)
    else stack
  }

  /** Line `n`: a directive records the stack as it stands after it, any
      other line the stack it is inside, when that is not empty. */
  function ScanLine(sc: Scan, n: int, line: string): Scan
  {
    var l := Strip(line);
    var st := ScanStack(sc.stack, l);
    if IsConditional(l) || st != [] then Scan(st, sc.marks[n := st]) else Scan(st, sc.marks)
  }

  /** The lines numbered from 1. */
  function ScanLines(lines: seq<string>): Scan
  {
    if lines == [] then Scan([], map[])
    else ScanLine(ScanLines(lines[..|lines| - 1]), |lines|, lines[|lines| - 1])
  }

  /** Only lines of the file are recorded. */
  lemma {:induction false} ScanMarksInRange(lines: seq<string>)
    ensures forall n :: n in ScanLines(lines).marks ==> 1 <= n <= |lines|
  {
    if lines != [] {
      ScanMarksInRange(lines[..|lines| - 1]);
    }
  }

  /** Later lines leave what earlier lines recorded alone. */
  lemma {:induction false} ScanKeepsEarlier(lines: seq<string>, k: nat)
    requires k <= |lines|
    ensures var early := ScanLines(lines[..k]).marks; var all := ScanLines(lines).marks;
      forall n :: 1 <= n <= k ==> (n in early <==> n in all) && (n in early ==> early[n] == all[n])
    decreases |lines| - k
  {
    if k < |lines| {
      var init := lines[..|lines| - 1];
      assert init[..k] == lines[..k];
      ScanKeepsEarlier(init, k);
    } else {
      assert lines[..k] == lines;
    }
  }

  /** What line `i` records: a directive always records the stack after
      it, another line the stack around it when that is not empty. */
  lemma ScanRecordsLine(lines: seq<string>, i: nat)
    requires 1 <= i <= |lines|
    ensures var before := ScanLines(lines[..i - 1]).stack;
      var l := Strip(lines[i - 1]);
      var marks := ScanLines(lines).marks;
      (i in marks <==> IsConditional(l) || before != [])
      && (i in marks ==> marks[i] == ScanStack(before, l))
  {
    ScanKeepsEarlier(lines, i);
    ScanMarksInRange(lines[..i - 1]);
    assert lines[..i][..i - 1] == lines[..i - 1];
    assert lines[..i][i - 1] == lines[i - 1];
  }

  /** The two scans part at `#elif`: the source scan keeps the condition it
      replaces, the tracker does not. */
  lemma ScanElifDeepens(stack: seq<string>, l: string)
    requires IsElif(l) && stack != []
    ensures |ScanStack(stack, l)| == |TrackStack(stack, l)| + 1
  {
    assert !IsIf(l) by {
      assert l[..5] == "#elif";
      assert l[1] == 'e';
    }
  }

  /** The CONFIG names of a list of conditions. */
  function ConditionConfigs(conds: seq<string>): set<string>
  {
    UnionOf(conds, ExtractConfigs)
  }

  /** The union of `f` over a list, from the front. */
  function UnionOf(xs: seq<string>, f: string -> set<string>): set<string>
  {
    if xs == [] then {} else UnionOf(xs[..|xs| - 1], f) + f(xs[|xs| - 1])
  }

  lemma {:induction false} UnionOfIff(xs: seq<string>, f: string -> set<string>, c: string)
    ensures c in UnionOf(xs, f) <==> exists j :: 0 <= j < |xs| && c in f(xs[j])
  {
    if xs != [] {
      var init := xs[..|xs| - 1];
      UnionOfIff(init, f, c);
      assert forall j :: 0 <= j < |init| ==> init[j] == xs[j];
    }
  }

  /** A name is among them exactly when one of the conditions holds it. */
  lemma ConditionConfigsIff(conds: seq<string>, c: string)
    ensures c in ConditionConfigs(conds) <==> exists j :: 0 <= j < |conds| && c in ExtractConfigs(conds[j])
  {
    UnionOfIff(conds, ExtractConfigs, c);
  }

  /** The CONFIG names of every condition recorded for a target line. */
  function Collected(marks: map<int, seq<string>>, nums: set<int>): set<string>
  {
    set n, c | n in nums && n in marks && c in ConditionConfigs(marks[n]) :: c
  }

  /** A non-empty set of line numbers has a member to pick. */
  lemma SomeMember(s: set<int>)
    requires s != {}
    ensures exists x :: x in s
  {
    if forall x :: x !in s {
      assert false;
    }
  }

  lemma CollectedAdd(marks: map<int, seq<string>>, done: set<int>, n: int)
    ensures Collected(marks, done + {n}) == Collected(marks, done) + (if n in marks then ConditionConfigs(marks[n]) else {})
  {
  }

  /** A name is collected exactly when some condition recorded for some
      target line holds it. */
  lemma CollectedIff(marks: map<int, seq<string>>, nums: set<int>, c: string)
    ensures c in Collected(marks, nums) <==>
      exists n, j :: n in nums && n in marks && 0 <= j < |marks[n]| && c in ExtractConfigs(marks[n][j])
  {
    forall n | n in nums && n in marks {
      ConditionConfigsIff(marks[n], c);
    }
  }

  /** `extract_config_conditions` on the lines of the file (None when it
      does not exist or cannot be read): the scan, then the collection
      over the target lines. */
  method ExtractConfigConditions(source: Option<seq<string>>, nums: set<int>) returns (conditions: set<string>)
    ensures source.None? ==> conditions == {}
    ensures source.Some? ==> conditions == Collected(ScanLines(source.value).marks, nums)
  {
    if source.None? {
      return {};
    }
    var marks := ScanConditions(source.value);
    conditions := CollectConditions(marks, nums);
  }

  /** `for line_num in line_numbers: ...`. */
  method CollectConditions(marks: map<int, seq<string>>, nums: set<int>) returns (conditions: set<string>)
    ensures conditions == Collected(marks, nums)
  {
    conditions := {};
    var todo := nums;
    while todo != {}
      invariant todo <= nums
      invariant conditions == Collected(marks, nums - todo)
      decreases |todo|
    {
      SomeMember(todo);
      var n: int :| n in todo;
      CollectedAdd(marks, nums - todo, n);
      if n in marks {
        var cs := ConfigsOfConditions(marks[n]);
        conditions := conditions + cs;
      }
      assert nums - (todo - {n}) == (nums - todo) + {n};
      todo := todo - {n};
    }
    assert nums - todo == nums;
  }

  /** The scan loop, `for i, line in enumerate(lines, start=1)`. */
  method ScanConditions(lines: seq<string>) returns (marks: map<int, seq<string>>)
    ensures marks == ScanLines(lines).marks
  {
    var stack: seq<string> := [];
    marks := map[];
    var i := 0;
    while i < |lines|
      invariant i <= |lines|
      invariant ScanLines(lines[..i]) == Scan(stack, marks)
    {
      assert lines[..i + 1][..i] == lines[..i];
      var stripped := Strip(lines[i]);
      if IsIf(stripped) || IsElif(stripped) {
        stack := stack + [stripped];
        marks := marks[i + 1 := stack];
      } else if IsElse(stripped) {
        if stack != [] {
          var last := stack[|stack| - 1];
          stack := stack[..|stack| - 1] + [Negated(last)];
        }
        marks := marks[i + 1 := stack];
      } else if IsEndif(stripped) {
        if stack != [] {
          stack := stack[..|stack| - 1];
        }
        marks := marks[i + 1 := stack];
      } else if stack != [] {
        marks := marks[i + 1 := stack];
      }
      i := i + 1;
    }
    assert lines[..i] == lines;
  }

  /** `for cond in line_conditions[line_num]: conditions.update(...)`. */
  method ConfigsOfConditions(conds: seq<string>) returns (r: set<string>)
    ensures r == ConditionConfigs(conds)
  {
    r := {};
    var j := 0;
    while j < |conds|
      invariant j <= |conds|
      invariant r == ConditionConfigs(conds[..j])
    {
      assert conds[..j + 1][..j] == conds[..j];
      r := r + ExtractConfigs(conds[j]);
      j := j + 1;
    }
    assert conds[..j] == conds;
  }
}
