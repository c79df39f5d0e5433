/** What the operations of a backport session (class `Project`) answer and
    how they move its flags, as functions of the flags and of the answers
    git and the build, test and PoC scripts give. */
module ProjectSpec {
  import opened Results
  import opened Text
  import opened Tags
  import Alignment
  import Repair
  import Hunks = Split
  import Feedback

  /** One run of build.sh, test.sh or poc.sh: the script is missing, it ran
      past its timeout, or it exited with a code after writing `output` to
      stderr. */
  datatype Script = Absent | TimedOut | Finished(code: int, output: string)

  /** The answers of the repository.
      - `apply(ref, applied, patch)`: the stderr of `git apply` of `patch` on a
        clean checkout of `ref` on which the patches `applied` were applied in
        order; None when it applies.
      - `files(ref, applied)`: the file contents of that working tree;
        `files(ref, [])` is also the committed tree of `ref`.
      - `renamed(path)`: what `git diff --diff-filter=R --name-status --follow`
        prints for `path`.
      - `tags(ref)`: the lines of the tags file ctags writes for `ref`.
      - `walk(ref, applied)`: `(path, basename)` of every file under the
        project directory, in that same working tree.
      - `symbolOf(line)`: the first word followed by `{` or `(` in `line`,
        None when there is none. */
  datatype Env = Env(
    apply: (string, seq<string>, string) -> Option<string>,
    files: (string, seq<string>) -> map<string, string>,
    renamed: string -> string,
    tags: string -> seq<string>,
    walk: (string, seq<string>) -> seq<(string, string)>,
    symbolOf: string -> Option<string>)

  /** The utilities of src/tools/utils.py and the diagnostics of
      `_apply_error_handling` that the session calls, held as values; the
      session binds them to the model's definitions (`Utilities`). */
  datatype Utils = Utils(
    revise: (string, map<string, string>, bool) -> string,
    diagnose: (map<string, string>, seq<(string, string)>, string, string) -> Result<(string, string)>,
    split: string -> seq<string>,
    similar: (string, seq<(string, string)>) -> seq<string>)

  /** `revise_patch` (its patch), `_apply_error_handling`,
      `split_patch(patch, False)` and `find_most_similar_files`. */
  function Utilities(): Utils {
    Utils((p, tree, force) => Repair.RevisedPatch(p, tree, force).0,
          (tree, walk, ref, p) => Feedback.ErrorFeedback(tree, walk, ref, p),
          p => Hunks.SplitPatchUnits(p, false),
          (name, walk) => Alignment.MostSimilarFiles(name, walk))
  }

  /** The session fields the operations change, as one value. */
  datatype Flags = Flags(
    succeeded: seq<string>,
    mismatches: nat,
    round: bool,
    allHunks: bool,
    compiled: bool,
    tested: bool,
    pocPassed: bool)

  /** The text an apply returns, and the revised patches that were appended
      to `succeeded_patches` on the way, in order. */
  datatype Outcome = Outcome(text: Result<string>, applied: seq<string>)

  /** Appending in two steps appends the concatenation. */
  lemma AppendTwice(a: seq<string>, b: seq<string>, c: seq<string>)
    ensures a + b + c == a + (b + c)
  {
  }

  // ---------------------------------------------------------------------
  // Messages

  const Applied := "Patch applied successfully\n"
  const CorruptPatch := "Unexpected corrupt patch, Please carefully check your answer, especially in your call tools arguments.\n"
  const MismatchHead := "This patch does not apply because of "
  const MismatchName := "CONTEXT MISMATCH"
  const MismatchTail := ". Context are patch lines that already exist in the file, that is, lines starting with ` ` and `-`. You should modify the error patch according to the context of older version.\n"
  const DiffIntro := "Besides, here is detailed info about how the context differs between the patch and the old version.\n"

  /** The reply to a hunk whose context does not match the file. */
  function MismatchReply(m: Texts, block: string, differ: string): string {
    m.mismatchHead + MismatchName + m.mismatchTail + block + m.diffIntro + differ
  }

  /** `missing has been moved to path. Please use --- a/path in your patch.` */
  function MovedTo(m: Texts, missing: string, path: string): string {
    missing + m.movedTo + path + m.useHeader + path + m.inPatch
  }

  /** The items of a Python list of strings as `repr` writes them. */
  function QuotedItems(xs: seq<string>): string
    decreases |xs|
  {
    if xs == [] then ""
    else (if |xs| == 1 then "'" + xs[0] + "'" else "'" + xs[0] + "', " + QuotedItems(xs[1..]))
  }

  /** The reply when no candidate path took the patch: the candidates and
      every reply gathered while trying them. */
  function MovedSomewhere(m: Texts, paths: seq<string>, tried: string): string {
    m.movedHead + QuotedItems(paths) + m.movedTail + tried
  }

  const ApplyFailureHead := "For the patch you just generated, there was an APPLY failure during testing. Specifically there was a context mismatch in hunk "
  const ApplyFailureMid := " across the patch, below is part of the feedback I found for you.\n"
  const SourceNote := "Here is the source code near the hunk context for your reference, a good patch context should look exactly like the source code.\n"
  const DetailNote := "In addition to that, I've got more detailed error messages for you below where the context of your generated patch differs specifically from the source code context.(The line numbers below are all line numbers in the hunk, not the entire patch.)\n"
  const OnlyHunkHead := "Based on the above feedback, MUST you please modify only hunk "
  const OnlyHunkMid := " in the patch and leave the other hunks untouched so that the context present in hunk "
  const OnlyHunkTail := " is exactly the same as the source code to guarantee that git apply can be executed normally.\n"

  /** The reply when hunk `idx` of the joined patch does not apply. */
  function ApplyFailure(m: Texts, idx: nat, block: string, differ: string): string {
    var n := NatToString(idx);
    m.applyFailureHead + n + m.applyFailureMid + block + m.sourceNote + m.detailNote + differ
      + m.onlyHunkHead + n + m.onlyHunkMid + n + m.onlyHunkTail
  }

  const Compiled := "The patched source code could be COMPILED successfully! I really thank you for your great efforts.\n"
  const RevisePlea := "\nPlease revise the patch with above error message. Or use tools `locate_symbol` and `viewcode` to re-check patch-related code snippet. Please DO NOT send the same patch to me, repeated patches will harm the lives of others.\n"

  const CompileFailureHead := "The source code could not be COMPILED successfully after applying the patch. Next I'll give you the error message during compiling, and you should modify the error patch. Here is the error message:\n"

  /** The reply to a failed build: its error lines and a plea to revise. */
  function CompileFailure(m: Texts, errorLines: string): string {
    m.compileFailureHead + errorLines + m.revisePlea
  }

  const TestPassed := "The patched source code could pass TESTCASE! I really thank you for your great efforts.\n"
  const Timeout := "The TESTCASE process of the patched source code is timeout. "

  const TestFailureHead := "The patched program could not pass the testcase. Next I'll give you the error message during running the testcase, and you should modify the previous error patch according to this section. Here is the error message:\n"

  /** The reply to a failed testcase: its output and a plea to revise. */
  function TestFailure(m: Texts, output: string): string {
    m.testFailureHead + output + m.revisePlea
  }

  const NotTriggered := "Existing PoC could NOT TRIGGER the bug, which means your patch successfully fix the bug! I really thank you for your great efforts.\n"

  const PocFailureHead := "Existing PoC could still trigger the bug, which means your patch fail to fix the bug. Next I'll give you the error message during running the PoC, and you should modify the previous error patch according to this section. Here is the error message:\n"

  /** The reply when the PoC still triggers the bug: its output and a plea
      to revise. */
  function PocFailure(m: Texts, output: string): string {
    m.pocFailureHead + output + m.revisePlea
  }

  const MovedToText := " has been moved to "
  const UseHeader := ". Please use --- a/"
  const InPatch := " in your patch.\n"
  const MovedHead := "The target file has been moved, here is possible file paths:["
  const MovedTail := "]\n"

  /** The fixed texts the replies are made of. The reply functions take them
      as a value, so that a proof about a reply does not spell the texts out;
      the session holds `Messages()`. */
  datatype Texts = Texts(
    applied: string, corrupt: string,
    mismatchHead: string, mismatchTail: string, diffIntro: string,
    movedTo: string, useHeader: string, inPatch: string, movedHead: string, movedTail: string,
    applyFailureHead: string, applyFailureMid: string, sourceNote: string, detailNote: string,
    onlyHunkHead: string, onlyHunkMid: string, onlyHunkTail: string,
    compiled: string, compileFailureHead: string, revisePlea: string,
    testPassed: string, timeout: string, testFailureHead: string,
    notTriggered: string, pocFailureHead: string)

  /** The texts of src/tools/project.py. */
  function Messages(): Texts {
    Texts(Applied, CorruptPatch,
          MismatchHead, MismatchTail, DiffIntro,
          MovedToText, UseHeader, InPatch, MovedHead, MovedTail,
          ApplyFailureHead, ApplyFailureMid, SourceNote, DetailNote,
          OnlyHunkHead, OnlyHunkMid, OnlyHunkTail,
          Compiled, CompileFailureHead, RevisePlea,
          TestPassed, Timeout, TestFailureHead,
          NotTriggered, PocFailureHead)
  }

  // ---------------------------------------------------------------------
  // _apply_hunk and _apply_file_move_handling

  /** `_apply_hunk`: the patch is revised against the committed tree and
      applied to a clean checkout. Success appends the revised patch; a
      missing file starts the relocation; a corrupt patch and a context
      mismatch get their own replies. The two functions call each other
      without bound in Python; `fuel` stands for the interpreter's recursion
      limit. */
  function HunkOutcome(env: Env, u: Utils, m: Texts, ref: string, patch: string, force: bool, fuel: nat): Outcome
    decreases fuel, 0, 0
  {
    if fuel == 0 then Outcome(Err("RecursionError"), [])
    else
      var revised := u.revise(patch, env.files(ref, []), force);
      match env.apply(ref, [], revised)
      case None => Outcome(Ok(m.applied), [revised])
      case Some(stderr) =>
        if Contains(stderr, "No such file") then MoveOutcome(env, u, m, ref, revised, fuel - 1)
        else if Contains(stderr, "corrupt patch") then Outcome(Ok(m.corrupt), [])
        else match u.diagnose(env.files(ref, []), env.walk(ref, []), ref, revised)
          case Err(e) => Outcome(Err(e), [])
          case Ok((block, differ)) => Outcome(Ok(MismatchReply(m, block, differ)), [])
  }

  /** The first path of each location, in order. */
  function PathsOf(locs: seq<Location>): (r: seq<string>)
    ensures |r| == |locs|
    ensures forall i :: 0 <= i < |r| ==> r[i] == locs[i].0
  {
    if locs == [] then [] else [locs[0].0] + PathsOf(locs[1..])
  }

  /** The files whose names are nearest to the missing file's name. */
  function SimilarPaths(env: Env, u: Utils, ref: string, missing: string): seq<string> {
    u.similar(Feedback.BaseName(missing), env.walk(ref, []))
  }

  /** The files where the symbol of the patch's third line (its hunk header)
      is defined at `ref`, or else the similar files. */
  function LocatedPaths(env: Env, u: Utils, ref: string, oldPatch: string, missing: string): seq<string> {
    var pl := Split(oldPatch, '\n');
    if |pl| < 3 then SimilarPaths(env, u, ref, missing)
    else match env.symbolOf(pl[2])
      case None => SimilarPaths(env, u, ref, missing)
      case Some(symbol) =>
        var t := ParseTags(env.tags(ref));
        if symbol in t.entries && t.entries[symbol] != [] then PathsOf(t.entries[symbol])
        else SimilarPaths(env, u, ref, missing)
  }

  /** The paths the missing file may have moved to: the rename git reports
      (the second tab-separated field), or else the located paths. */
  function Candidates(env: Env, u: Utils, ref: string, oldPatch: string, missing: string): Result<seq<string>> {
    var diff := env.renamed(missing);
    if diff != "" then
      var fields := Split(diff, '\t');
      if |fields| < 2 then Err("IndexError") else Ok([fields[1]])
    else Ok(LocatedPaths(env, u, ref, oldPatch, missing))
  }

  /** `_apply_file_move_handling`. */
  function MoveOutcome(env: Env, u: Utils, m: Texts, ref: string, oldPatch: string, fuel: nat): Outcome
    decreases fuel, 2, 0
  {
    match Repair.HeaderPath(oldPatch, "--- a/")
    case None => Outcome(Err("IndexError"), [])
    case Some(missing) =>
      match Candidates(env, u, ref, oldPatch, missing)
      case Err(e) => Outcome(Err(e), [])
      case Ok(paths) => TryPaths(env, u, m, ref, oldPatch, missing, paths, 0, "", fuel)
  }

  /** The candidates from `k` on, each tried by applying the patch with every
      occurrence of the missing path replaced by it; `tried` holds the replies
      of the earlier ones. The first reply that contains "successfully" ends
      the search. */
  function TryPaths(env: Env, u: Utils, m: Texts, ref: string, oldPatch: string, missing: string, paths: seq<string>,
                    k: nat, tried: string, fuel: nat): Outcome
    decreases fuel, 1, |paths| - k
  {
    if k >= |paths| then Outcome(Ok(MovedSomewhere(m, paths, tried)), [])
    else
      var o := HunkOutcome(env, u, m, ref, Replace(oldPatch, missing, paths[k]), false, fuel);
      match o.text
      case Err(_) => o
      case Ok(t) =>
        if Contains(t, "successfully") then Outcome(Ok(MovedTo(m, missing, paths[k])), o.applied)
        else
          var rest := TryPaths(env, u, m, ref, oldPatch, missing, paths, k + 1, tried + t, fuel);
          Outcome(rest.text, o.applied + rest.applied)
  }

  /** What applying the patch moved to a candidate path gives. */
  type Attempt = string -> Outcome

  /** `TryPaths` over any attempt. */
  function TryEach(m: Texts, attempt: Attempt, missing: string, paths: seq<string>, k: nat, tried: string): Outcome
    decreases |paths| - k
  {
    if k >= |paths| then Outcome(Ok(MovedSomewhere(m, paths, tried)), [])
    else
      var o := attempt(paths[k]);
      match o.text
      case Err(_) => o
      case Ok(t) =>
        if Contains(t, "successfully") then Outcome(Ok(MovedTo(m, missing, paths[k])), o.applied)
        else
          var rest := TryEach(m, attempt, missing, paths, k + 1, tried + t);
          Outcome(rest.text, o.applied + rest.applied)
  }

  /** The candidate was tried and its reply does not count as a success. */
  predicate Declined(attempt: Attempt, p: string) {
    attempt(p).text.Ok? && !Contains(attempt(p).text.value, "successfully")
  }

  // ---------------------------------------------------------------------
  // _compile_patch

  /** Where applying the hunks of the joined patch one after the other
      stands: all so far applied, or hunk `idx` failed after `applied`. */
  datatype Stage = Applying(applied: seq<string>) | Failed(idx: nat, revised: string, applied: seq<string>)

  /** The first `n` hunks revised against the working tree as it stands and
      applied to it in order, up to the first that fails. */
  function ApplyUnits(env: Env, u: Utils, ref: string, units: seq<string>, force: bool, n: nat): Stage
    requires n <= |units|
  {
    if n == 0 then Applying([])
    else match ApplyUnits(env, u, ref, units, force, n - 1)
      case Failed(i, rv, a) => Failed(i, rv, a)
      case Applying(a) =>
        var rv := u.revise(units[n - 1], env.files(ref, a), force);
        if env.apply(ref, a, rv).None? then Applying(a + [rv]) else Failed(n - 1, rv, a)
  }

  /** The lines whose lower-case form contains "error:", in order. */
  function ErrorLinesOf(lines: seq<string>): seq<string>
    decreases |lines|
  {
    if lines == [] then []
    else (if Contains(Lower(lines[0]), "error:") then [lines[0]] else []) + ErrorLinesOf(lines[1..])
  }

  /** The compiler's error lines, joined by newlines. */
  function ErrorLines(output: string): string {
    Join(ErrorLinesOf(SplitLines(output)), "\n")
  }

  /** How the compile stage ends: a hunk of the joined patch does not apply,
      the build is missing or passes, it fails, or it runs past its timeout. */
  datatype Verdict = HunkFailed(idx: nat, revised: string, applied: seq<string>) | Built | BuildFailed(output: string) | BuildTimedOut

  function CompileVerdict(env: Env, u: Utils, ref: string, complete: string, force: bool, build: Script): Verdict {
    var units := u.split(complete);
    match ApplyUnits(env, u, ref, units, force, |units|)
    case Failed(idx, rv, a) => HunkFailed(idx, rv, a)
    case Applying(_) =>
      match build
      case Absent => Built
      case TimedOut => BuildTimedOut
      case Finished(code, output) => if code != 0 then BuildFailed(output) else Built
  }

  /** The reply of `_compile_patch` for each verdict. The diagnostics of a
      failed hunk read files from the committed tree of the ref, but look for
      similar files in the working tree the earlier hunks left; a build that
      runs past its timeout ends the program. */
  function CompileReply(env: Env, u: Utils, m: Texts, ref: string, v: Verdict): Result<string> {
    match v
    case HunkFailed(idx, rv, a) =>
      (match u.diagnose(env.files(ref, []), env.walk(ref, a), ref, rv)
       case Err(e) => Err(e)
       case Ok((block, differ)) => Ok(ApplyFailure(m, idx, block, differ)))
    case Built => Ok(m.compiled)
    case BuildFailed(output) => Ok(CompileFailure(m, ErrorLines(output)))
    case BuildTimedOut => Err("SystemExit")
  }

  /** `_compile_patch`: the reply, and whether it sets `compile_succeeded`. */
  function CompileOutcome(env: Env, u: Utils, m: Texts, ref: string, complete: string, force: bool, build: Script)
    : (Result<string>, bool)
  {
    var v := CompileVerdict(env, u, ref, complete, force, build);
    (CompileReply(env, u, m, ref, v), v == Built)
  }

  // ---------------------------------------------------------------------
  // _run_testcase, _run_poc and _validate

  /** The flags after `_run_testcase`. */
  function TestFlags(f: Flags, test: Script): Flags {
    match test
    case Absent => f.(tested := true)
    case TimedOut => f
    case Finished(code, _) => if code != 0 then f.(compiled := false) else f.(tested := true)
  }

  /** The reply of `_run_testcase`. */
  function TestReply(m: Texts, test: Script): string {
    match test
    case Absent => m.testPassed
    case TimedOut => m.timeout
    case Finished(code, output) => if code != 0 then TestFailure(m, output) else m.testPassed
  }

  /** The flags after `_run_poc`: the PoC still triggers the bug when its
      output holds the bug's error message; its exit code is not looked at. */
  function PocFlags(f: Flags, errMsg: string, complete: string, poc: Script): Flags {
    match poc
    case Absent => f.(pocPassed := true, succeeded := [complete])
    case TimedOut => f
    case Finished(_, output) =>
      if Contains(output, errMsg) then f.(compiled := false, tested := false)
      else f.(succeeded := [complete], pocPassed := true)
  }

  /** The reply of `_run_poc`. */
  function PocReply(m: Texts, errMsg: string, poc: Script): string {
    match poc
    case Absent => m.notTriggered
    case TimedOut => m.timeout
    case Finished(_, output) => if Contains(output, errMsg) then PocFailure(m, output) else m.notTriggered
  }

  /** The outcome of the per-hunk apply for each setting of the force flag. */
  type ApplyAt = bool -> Outcome

  /** The reply of the compile stage and whether it sets `compile_succeeded`,
      for each setting of the force flag. */
  type CompileAt = bool -> (Result<string>, bool)

  /** The test runs when compiled and not yet passed. */
  predicate TestDue(f: Flags) {
    f.compiled && !f.tested
  }

  /** The PoC runs when compiled, tested and not yet passed. */
  predicate PocDue(f: Flags) {
    f.compiled && f.tested && !f.pocPassed
  }

  /** The flags after the test and PoC stages. */
  function StagesFlags(f: Flags, errMsg: string, patch: string, test: Script, poc: Script): (g: Flags)
    ensures g.allHunks == f.allHunks && g.round == f.round && g.mismatches == f.mismatches
  {
    var f2 := if TestDue(f) then TestFlags(f, test) else f;
    if PocDue(f2) then PocFlags(f2, errMsg, patch, poc) else f2
  }

  /** The replies of the test and PoC stages. */
  function StagesReply(m: Texts, f: Flags, errMsg: string, patch: string, test: Script, poc: Script): string {
    var f2 := if TestDue(f) then TestFlags(f, test) else f;
    (if TestDue(f) then TestReply(m, test) else "") + (if PocDue(f2) then PocReply(m, errMsg, poc) else "")
  }

  /** The compile step of the whole-patch phase, given what compiling
      gives: it runs only when not yet compiled and is counted when it
      returns. Its reply (empty when skipped) and the flags after it. */
  function CompileStep(f: Flags, compiled: (Result<string>, bool)): (Result<string>, Flags) {
    if f.compiled then (Ok(""), f)
    else
      var (c, ok) := compiled;
      if c.Err? then (c, f) else (c, f.(compiled := ok, mismatches := f.mismatches + 1))
  }

  /** The flags after the whole-patch phase: the compile step, then, unless
      it raised, the test and PoC stages. */
  function WholeFlags(f: Flags, errMsg: string, patch: string, compiled: (Result<string>, bool), test: Script, poc: Script)
    : Flags
  {
    var (c, g) := CompileStep(f, compiled);
    if c.Err? then g else StagesFlags(g, errMsg, patch, test, poc)
  }

  /** The reply of the whole-patch phase. */
  function WholeReply(m: Texts, f: Flags, errMsg: string, patch: string, compiled: (Result<string>, bool),
                      test: Script, poc: Script): Result<string>
  {
    var (c, g) := CompileStep(f, compiled);
    match c
    case Err(e) => Err(e)
    case Ok(ct) => Ok(ct + StagesReply(m, g, errMsg, patch, test, poc))
  }

  /** The flags after the per-hunk phase, given what applying the hunk
      gives: a hunk marked "need not ported" counts as applied; any other is
      applied, and a reply naming a context mismatch is counted. */
  function HunkFlags(f: Flags, patch: string, o: Outcome): Flags {
    if Contains(patch, "need not ported") then f.(round := true)
    else
      var f1 := f.(succeeded := f.succeeded + o.applied, round := f.round || o.applied != []);
      if o.text.Ok? && Contains(o.text.value, MismatchName) then f1.(mismatches := f1.mismatches + 1) else f1
  }

  /** The reply of the per-hunk phase. */
  function HunkReply(m: Texts, patch: string, o: Outcome): Result<string> {
    if Contains(patch, "need not ported") then Ok(m.applied) else o.text
  }

  /** `_validate`, given what its stages give for each setting of the force
      flag: the compile is forced once a context mismatch was counted, the
      per-hunk apply once two were. */
  function ValidateStep(m: Texts, f: Flags, errMsg: string, patch: string, applyAt: ApplyAt, compileAt: CompileAt,
                        test: Script, poc: Script): (Result<string>, Flags)
  {
    if f.allHunks then
      var c := compileAt(f.mismatches >= 1);
      (WholeReply(m, f, errMsg, patch, c, test, poc), WholeFlags(f, errMsg, patch, c, test, poc))
    else
      var o := applyAt(f.mismatches >= 2);
      (HunkReply(m, patch, o), HunkFlags(f, patch, o))
  }

  /** `_validate` on the session's repository. */
  function ValidateOutcome(env: Env, u: Utils, m: Texts, errMsg: string, f: Flags, ref: string, patch: string,
                           build: Script, test: Script, poc: Script, fuel: nat): (Result<string>, Flags)
  {
    ValidateStep(m, f, errMsg, patch,
                 force => HunkOutcome(env, u, m, ref, patch, force, fuel),
                 force => CompileOutcome(env, u, m, ref, patch, force, build),
                 test, poc)
  }

  // ---------------------------------------------------------------------
  // Properties of the apply and relocation outcomes

  /** The reply to a context mismatch names the mismatch. */
  lemma MismatchReplyNamesIt(m: Texts, block: string, differ: string)
    ensures Contains(MismatchReply(m, block, differ), MismatchName)
  {
    var s := MismatchReply(m, block, differ);
    assert s[|m.mismatchHead|..|m.mismatchHead| + |MismatchName|] == MismatchName;
    ContainsAt(s, MismatchName, |m.mismatchHead|);
  }

  /** `_apply_hunk` tells the stderr of a failed apply apart in a fixed order:
      a missing file first, then a corrupt patch, then a context mismatch,
      whose reply names it. Only a clean apply appends, and it appends the
      revised patch once. */
  lemma HunkClassified(env: Env, u: Utils, m: Texts, ref: string, patch: string, force: bool, fuel: nat)
    ensures var o := HunkOutcome(env, u, m, ref, patch, force, fuel);
      var revised := u.revise(patch, env.files(ref, []), force);
      var answer := env.apply(ref, [], revised);
      (fuel == 0 ==> o == Outcome(Err("RecursionError"), []))
      && (fuel > 0 && answer.None? ==> o == Outcome(Ok(m.applied), [revised]))
      && (fuel > 0 && answer.Some? && Contains(answer.value, "No such file") ==>
            o == MoveOutcome(env, u, m, ref, revised, fuel - 1))
      && (fuel > 0 && answer.Some? && !Contains(answer.value, "No such file") && Contains(answer.value, "corrupt patch") ==>
            o == Outcome(Ok(m.corrupt), []))
      && (fuel > 0 && answer.Some? && !Contains(answer.value, "No such file") && !Contains(answer.value, "corrupt patch") ==>
            o.applied == []
            && (o.text.Ok? <==> u.diagnose(env.files(ref, []), env.walk(ref, []), ref, revised).Ok?)
            && (o.text.Ok? ==> Contains(o.text.value, MismatchName)))
  {
    var o := HunkOutcome(env, u, m, ref, patch, force, fuel);
    if fuel > 0 && o.text.Ok? {
      var revised := u.revise(patch, env.files(ref, []), force);
      var fb := u.diagnose(env.files(ref, []), env.walk(ref, []), ref, revised);
      if fb.Ok? {
        MismatchReplyNamesIt(m, fb.value.0, fb.value.1);
      }
    }
  }

  /** Every patch an apply appends, however deep the relocation went, is one
      that `git apply` took on a clean checkout of the ref. */
  lemma {:induction false} HunkAppendsOnlyApplied(env: Env, u: Utils, m: Texts, ref: string, patch: string, force: bool, fuel: nat)
    ensures forall q :: q in HunkOutcome(env, u, m, ref, patch, force, fuel).applied ==> env.apply(ref, [], q).None?
    decreases fuel, 0, 0
  {
    if fuel > 0 {
      var revised := u.revise(patch, env.files(ref, []), force);
      var answer := env.apply(ref, [], revised);
      if answer.Some? && Contains(answer.value, "No such file") {
        MoveAppendsOnlyApplied(env, u, m, ref, revised, fuel - 1);
      }
    }
  }

  lemma {:induction false} MoveAppendsOnlyApplied(env: Env, u: Utils, m: Texts, ref: string, oldPatch: string, fuel: nat)
    ensures forall q :: q in MoveOutcome(env, u, m, ref, oldPatch, fuel).applied ==> env.apply(ref, [], q).None?
    decreases fuel, 2, 0
  {
    var missing := Repair.HeaderPath(oldPatch, "--- a/");
    if missing.Some? {
      var paths := Candidates(env, u, ref, oldPatch, missing.value);
      if paths.Ok? {
        TryAppendsOnlyApplied(env, u, m, ref, oldPatch, missing.value, paths.value, 0, "", fuel);
      }
    }
  }

  lemma {:induction false} TryAppendsOnlyApplied(env: Env, u: Utils, m: Texts, ref: string, oldPatch: string, missing: string,
                                                  paths: seq<string>, k: nat, tried: string, fuel: nat)
    ensures forall q :: q in TryPaths(env, u, m, ref, oldPatch, missing, paths, k, tried, fuel).applied ==>
      env.apply(ref, [], q).None?
    decreases fuel, 1, |paths| - k
  {
    if k < |paths| {
      var p := Replace(oldPatch, missing, paths[k]);
      HunkAppendsOnlyApplied(env, u, m, ref, p, false, fuel);
      var o := HunkOutcome(env, u, m, ref, p, false, fuel);
      if o.text.Ok? && !Contains(o.text.value, "successfully") {
        TryAppendsOnlyApplied(env, u, m, ref, oldPatch, missing, paths, k + 1, tried + o.text.value, fuel);
      }
    }
  }

  /** The relocation is `TryEach` over the session's own apply. */
  lemma {:induction false} TryPathsIsTryEach(env: Env, u: Utils, m: Texts, ref: string, oldPatch: string, missing: string,
                                             paths: seq<string>, k: nat, tried: string, fuel: nat, attempt: Attempt)
    requires forall p :: p in paths ==> attempt(p) == HunkOutcome(env, u, m, ref, Replace(oldPatch, missing, p), false, fuel)
    ensures TryPaths(env, u, m, ref, oldPatch, missing, paths, k, tried, fuel) == TryEach(m, attempt, missing, paths, k, tried)
    decreases |paths| - k
  {
    if k < |paths| {
      assert paths[k] in paths;
      var o := attempt(paths[k]);
      if o.text.Ok? && !Contains(o.text.value, "successfully") {
        TryPathsIsTryEach(env, u, m, ref, oldPatch, missing, paths, k + 1, tried + o.text.value, fuel, attempt);
      }
    }
  }

  /** The relocation appends only what the candidates' applies appended. */
  lemma {:induction false} TryEachKeeps(m: Texts, attempt: Attempt, good: string -> bool, missing: string,
                                        paths: seq<string>, k: nat, tried: string)
    requires forall p :: p in paths ==> forall q :: q in attempt(p).applied ==> good(q)
    ensures forall q :: q in TryEach(m, attempt, missing, paths, k, tried).applied ==> good(q)
    decreases |paths| - k
  {
    if k < |paths| {
      var o := attempt(paths[k]);
      assert paths[k] in paths;
      if o.text.Ok? && !Contains(o.text.value, "successfully") {
        TryEachKeeps(m, attempt, good, missing, paths, k + 1, tried + o.text.value);
      }
    }
  }

  /** The replies of the candidates `paths[k..j]`, in order. */
  function Replies(attempt: Attempt, paths: seq<string>, k: nat, j: nat): string
    requires k <= j <= |paths|
    decreases j - k
  {
    if k == j then ""
    else
      var o := attempt(paths[k]);
      (if o.text.Ok? then o.text.value else "") + Replies(attempt, paths, k + 1, j)
  }

  /** When every candidate declines, the relocation replies with the list of
      candidates followed by all their replies, in order. */
  lemma {:induction false} TryEachAllDeclined(m: Texts, attempt: Attempt, missing: string, paths: seq<string>, k: nat, tried: string)
    requires k <= |paths|
    requires forall i :: k <= i < |paths| ==> Declined(attempt, paths[i])
    ensures TryEach(m, attempt, missing, paths, k, tried).text == Ok(MovedSomewhere(m, paths, tried + Replies(attempt, paths, k, |paths|)))
    decreases |paths| - k
  {
    if k < |paths| {
      assert Declined(attempt, paths[k]);
      var t := attempt(paths[k]).text.value;
      TryEachAllDeclined(m, attempt, missing, paths, k + 1, tried + t);
      assert tried + t + Replies(attempt, paths, k + 1, |paths|) == tried + Replies(attempt, paths, k, |paths|);
    } else {
      assert tried + Replies(attempt, paths, k, |paths|) == tried;
    }
  }

  /** The relocation stops at the first candidate that does not decline: it
      names the candidate whose reply counts as a success, or ends with the
      error the apply raised. */
  lemma {:induction false} TryEachFirstTaken(m: Texts, attempt: Attempt, missing: string, paths: seq<string>,
                                             k: nat, tried: string, j: nat)
    requires k <= j < |paths| && !Declined(attempt, paths[j])
    requires forall i :: k <= i < j ==> Declined(attempt, paths[i])
    ensures var o := TryEach(m, attempt, missing, paths, k, tried);
      var h := attempt(paths[j]).text;
      o.text == if h.Err? then h else Ok(MovedTo(m, missing, paths[j]))
    decreases j - k
  {
    if k < j {
      TryEachFirstTaken(m, attempt, missing, paths, k + 1, tried + attempt(paths[k]).text.value, j);
    }
  }

  /** The candidates come in a fixed order of preference: the rename git
      reports; else the files defining the symbol of the hunk header, in the
      order the tags file lists them; else at most five files of similar
      name. */
  lemma CandidatesInOrder(env: Env, u: Utils, ref: string, oldPatch: string, missing: string)
    ensures var c := Candidates(env, u, ref, oldPatch, missing);
      var diff := env.renamed(missing);
      var fields := Split(diff, '\t');
      var pl := Split(oldPatch, '\n');
      var symbol := if |pl| < 3 then None else env.symbolOf(pl[2]);
      var locs := if symbol.Some? then LocationsIn(env.tags(ref), symbol.value) else [];
      (diff != "" ==> c == (if |fields| < 2 then Err("IndexError") else Ok([fields[1]])))
      && (diff == "" && locs != [] ==> c == Ok(PathsOf(locs)))
      && (diff == "" && locs == [] ==> c == Ok(SimilarPaths(env, u, ref, missing)))
  {
    var pl := Split(oldPatch, '\n');
    if |pl| >= 3 && env.symbolOf(pl[2]).Some? {
      ParseTagsCollects(env.tags(ref), env.symbolOf(pl[2]).value);
    }
  }

  // ---------------------------------------------------------------------
  // Properties of the compile stage

  /** Applying the hunks stops at the first that fails: every hunk before it
      applied, on the tree the earlier ones left; when none fails, each hunk
      left exactly one revised patch behind. */
  lemma {:induction false} ApplyUnitsStopsAtFirst(env: Env, u: Utils, ref: string, units: seq<string>, force: bool, n: nat)
    requires n <= |units|
    ensures match ApplyUnits(env, u, ref, units, force, n)
      case Applying(a) => |a| == n
      case Failed(idx, rv, a) =>
        idx < n && |a| == idx
        && ApplyUnits(env, u, ref, units, force, idx) == Applying(a)
        && rv == u.revise(units[idx], env.files(ref, a), force)
        && env.apply(ref, a, rv).Some?
  {
    if n > 0 {
      ApplyUnitsStopsAtFirst(env, u, ref, units, force, n - 1);
    }
  }

  /** Once a hunk fails, the later hunks are not tried. */
  lemma {:induction false} ApplyUnitsFailedStays(env: Env, u: Utils, ref: string, units: seq<string>, force: bool, n: nat, m: nat)
    requires n <= m <= |units| && ApplyUnits(env, u, ref, units, force, n).Failed?
    ensures ApplyUnits(env, u, ref, units, force, m) == ApplyUnits(env, u, ref, units, force, n)
    decreases m - n
  {
    if n < m {
      ApplyUnitsFailedStays(env, u, ref, units, force, n, m - 1);
    }
  }

  /** The error-line filter keeps a line exactly when its lower-case form
      contains "error:"; it works line by line, so it keeps their order. */
  lemma {:induction false} ErrorLinesOfConcat(a: seq<string>, b: seq<string>)
    ensures ErrorLinesOf(a + b) == ErrorLinesOf(a) + ErrorLinesOf(b)
    decreases |a|
  {
    if a == [] {
      assert a + b == b;
    } else {
      var head := if Contains(Lower(a[0]), "error:") then [a[0]] else [];
      ErrorLinesOfConcat(a[1..], b);
      assert (a + b)[0] == a[0];
      assert (a + b)[1..] == a[1..] + b;
      calc {
        ErrorLinesOf(a + b);
        head + ErrorLinesOf(a[1..] + b);
        head + (ErrorLinesOf(a[1..]) + ErrorLinesOf(b));
        (head + ErrorLinesOf(a[1..])) + ErrorLinesOf(b);
      }
    }
  }

  lemma ErrorLinesOfOne(line: string)
    ensures ErrorLinesOf([line]) == if Contains(Lower(line), "error:") then [line] else []
  {
  }

  /** A line of the compiler output is kept exactly when its lower-case form
      contains "error:". */
  lemma {:induction false} ErrorLinesOfKeeps(lines: seq<string>)
    ensures forall l :: l in ErrorLinesOf(lines) ==> l in lines && Contains(Lower(l), "error:")
    ensures forall i :: 0 <= i < |lines| && Contains(Lower(lines[i]), "error:") ==> lines[i] in ErrorLinesOf(lines)
    decreases |lines|
  {
    if lines != [] {
      ErrorLinesOfKeeps(lines[1..]);
      assert forall i :: 1 <= i < |lines| ==> lines[i] == lines[1..][i - 1];
    }
  }

  /** The compile stage fails on the first hunk that does not apply and
      names it; only a patch that applies and whose build is missing or exits
      with 0 sets `compile_succeeded`. */
  lemma CompileSetsFlag(env: Env, u: Utils, m: Texts, ref: string, complete: string, force: bool, build: Script)
    ensures var v := CompileVerdict(env, u, ref, complete, force, build);
      var units := u.split(complete);
      var st := ApplyUnits(env, u, ref, units, force, |units|);
      (CompileOutcome(env, u, m, ref, complete, force, build).1 <==>
         st.Applying? && (build.Absent? || (build.Finished? && build.code == 0)))
      && (st.Failed? <==> v.HunkFailed?)
      && (st.Failed? ==> v == HunkFailed(st.idx, st.revised, st.applied))
      && (st.Applying? && build.Finished? && build.code != 0 ==> v == BuildFailed(build.output))
      && (st.Applying? && build.TimedOut? ==> v == BuildTimedOut)
  {
  }

  // ---------------------------------------------------------------------
  // Properties of _validate

  /** A hunk marked "need not ported" counts as applied without touching the
      repository. */
  lemma NeedNotPorted(m: Texts, f: Flags, patch: string, o: Outcome)
    requires Contains(patch, "need not ported")
    ensures HunkReply(m, patch, o) == Ok(m.applied) && HunkFlags(f, patch, o) == f.(round := true)
  {
  }

  /** In the per-hunk phase the counter grows by one exactly when the reply
      names a context mismatch, and only the appended patches and the round
      flag change besides. */
  lemma HunkPhaseCounts(m: Texts, f: Flags, patch: string, o: Outcome)
    requires !Contains(patch, "need not ported")
    ensures var r := HunkReply(m, patch, o);
      var g := HunkFlags(f, patch, o);
      r == o.text
      && g.mismatches == f.mismatches + (if r.Ok? && Contains(r.value, MismatchName) then 1 else 0)
      && g.succeeded == f.succeeded + o.applied
      && g.round == (f.round || o.applied != [])
      && g.(mismatches := f.mismatches, succeeded := f.succeeded, round := f.round) == f
  {
  }

  /** `_validate` takes the per-hunk phase until all hunks applied and the
      whole-patch phase after; the per-hunk apply is forced exactly when two
      context mismatches were counted and the compile exactly when one was. */
  lemma ValidateForces(m: Texts, f: Flags, errMsg: string, patch: string, applyAt: ApplyAt, compileAt: CompileAt,
                       test: Script, poc: Script)
    ensures var (r, g) := ValidateStep(m, f, errMsg, patch, applyAt, compileAt, test, poc);
      var o := applyAt(f.mismatches >= 2);
      var c := compileAt(f.mismatches >= 1);
      (!f.allHunks ==> r == HunkReply(m, patch, o) && g == HunkFlags(f, patch, o))
      && (f.allHunks ==> r == WholeReply(m, f, errMsg, patch, c, test, poc) && g == WholeFlags(f, errMsg, patch, c, test, poc))
  {
  }

  /** The compile step runs only when not yet compiled, and each compile
      that returns is counted; the phase never touches
      `all_hunks_applied_succeeded` or `round_succeeded`. */
  lemma CompileGate(f: Flags, errMsg: string, patch: string, c: (Result<string>, bool), test: Script, poc: Script)
    ensures var g := WholeFlags(f, errMsg, patch, c, test, poc);
      g.allHunks == f.allHunks && g.round == f.round
      && (f.compiled ==> g.mismatches == f.mismatches)
      && (!f.compiled && c.0.Ok? ==> g.mismatches == f.mismatches + 1)
      && (!f.compiled && c.0.Err? ==> g == f)
  {
  }

  /** A compile that raises ends the phase with its error. */
  lemma CompileRaises(m: Texts, f: Flags, errMsg: string, patch: string, c: (Result<string>, bool), test: Script, poc: Script)
    requires !f.compiled && c.0.Err?
    ensures WholeReply(m, f, errMsg, patch, c, test, poc) == c.0
  {
  }

  /** The test and PoC stages keep their order: a newly passed test needs the
      patch compiled, a newly passed PoC needs it compiled and tested and
      leaves exactly the complete patch as the succeeded one; without a passed
      PoC the succeeded patches stay. */
  lemma StagesGate(f: Flags, errMsg: string, patch: string, test: Script, poc: Script)
    ensures var g := StagesFlags(f, errMsg, patch, test, poc);
      (g.tested && !f.tested ==> f.compiled && g.compiled)
      && (g.pocPassed && !f.pocPassed ==> g.compiled && g.tested && g.succeeded == [patch])
      && (g.pocPassed == f.pocPassed ==> g.succeeded == f.succeeded)
  {
  }

  /** Once a patch compiled, passed its tests and its PoC, validating again
      changes nothing and says nothing. */
  lemma ValidateDone(m: Texts, f: Flags, errMsg: string, patch: string, c: (Result<string>, bool), test: Script, poc: Script)
    requires f.compiled && f.tested && f.pocPassed
    ensures WholeReply(m, f, errMsg, patch, c, test, poc) == Ok("")
    ensures WholeFlags(f, errMsg, patch, c, test, poc) == f
  {
    assert StagesReply(m, f, errMsg, patch, test, poc) == "" + "";
  }

  /** A failed test run clears only `compile_succeeded`, a timeout changes
      nothing, a missing or passing test sets `testcase_succeeded`. */
  lemma TestStageEffects(f: Flags, test: Script)
    ensures var g := TestFlags(f, test);
      g.(compiled := f.compiled, tested := f.tested) == f
      && (test.TimedOut? ==> g == f)
      && (test.Finished? && test.code != 0 ==> g == f.(compiled := false))
      && ((test.Absent? || (test.Finished? && test.code == 0)) ==> g == f.(tested := true))
  {
  }

  /** A PoC whose output holds the bug's message clears both
      `compile_succeeded` and `testcase_succeeded`; a missing PoC or one that
      no longer shows it sets `poc_succeeded` and leaves the complete patch as
      the only succeeded one. */
  lemma PocStageEffects(f: Flags, errMsg: string, complete: string, poc: Script)
    ensures var g := PocFlags(f, errMsg, complete, poc);
      g.(compiled := f.compiled, tested := f.tested, pocPassed := f.pocPassed, succeeded := f.succeeded) == f
      && (poc.TimedOut? ==> g == f)
      && (poc.Finished? && Contains(poc.output, errMsg) ==> g == f.(compiled := false, tested := false))
      && ((poc.Absent? || (poc.Finished? && !Contains(poc.output, errMsg))) ==>
            g == f.(pocPassed := true, succeeded := [complete]))
  {
  }
}
