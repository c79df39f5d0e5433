/** The backport session (class `Project` of src/tools/project.py): its
    flags, its symbol cache, and the operations that move them. The
    repository and the scripts answer through `env` and the script runs
    passed in; the utilities are called through `utils`. */
module Session {
  import opened Results
  import opened Text
  import opened Tags
  import opened ProjectSpec
  import Repair
  import Feedback

  class Project {
    const env: Env
    const utils: Utils
    const texts: Texts
    const errMsg: string
    var succeededPatches: seq<string>
    var contextMismatchTimes: nat
    var roundSucceeded: bool
    var allHunksAppliedSucceeded: bool
    var compileSucceeded: bool
    var testcaseSucceeded: bool
    var pocSucceeded: bool
    var symbolMap: map<string, Table>

    /** Every cached symbol table is the one the ref's tags file gives. */
    ghost predicate Valid()
      reads this
    {
      forall r :: r in symbolMap ==> symbolMap[r] == ParseTags(env.tags(r))
    }

    /** The session fields, as one value. */
    ghost function State(): Flags
      reads this
    {
      Flags(succeededPatches, contextMismatchTimes, roundSucceeded, allHunksAppliedSucceeded,
            compileSucceeded, testcaseSucceeded, pocSucceeded)
    }

    /** `__init__`: a missing or empty error message becomes "no err_msg";
        every flag starts false, the counter at 0, the caches empty. */
    constructor(env: Env, errorMessage: Option<string>)
      ensures this.env == env && utils == Utilities() && texts == Messages()
      ensures errMsg == if errorMessage.None? || errorMessage.value == "" then "no err_msg" else errorMessage.value
      ensures State() == Flags([], 0, false, false, false, false, false)
      ensures symbolMap == map[] && Valid()
    {
      this.env := env;
      utils := Utilities();
      texts := Messages();
      errMsg := if errorMessage.None? || errorMessage.value == "" then "no err_msg" else errorMessage.value;
      succeededPatches := [];
      contextMismatchTimes := 0;
      roundSucceeded := false;
      allHunksAppliedSucceeded := false;
      compileSucceeded := false;
      testcaseSucceeded := false;
      pocSucceeded := false;
      symbolMap := map[];
    }

    /** `_prepare`: the symbol table of `ref`, read from its tags file. */
    method Prepare(ref: string)
      requires Valid()
      modifies this`symbolMap
      ensures Valid() && symbolMap == old(symbolMap)[ref := ParseTags(env.tags(ref))]
      ensures State() == old(State())
    {
      var t := ReadTags(env.tags(ref));
      symbolMap := symbolMap[ref := t];
    }

    /** `_locate_symbol`: the locations of `symbol` at `ref`, in tags-file
        order; the ref is prepared on first use. */
    method LocateSymbol(ref: string, symbol: string) returns (r: Option<seq<Location>>)
      requires Valid()
      modifies this`symbolMap
      ensures Valid() && symbolMap == old(symbolMap)[ref := ParseTags(env.tags(ref))]
      ensures r.Some? <==> LocationsIn(env.tags(ref), symbol) != []
      ensures r.Some? ==> r.value == LocationsIn(env.tags(ref), symbol)
      ensures var t := ParseTags(env.tags(ref));
        r == if symbol in t.entries then Some(t.entries[symbol]) else None
    {
      if ref !in symbolMap {
        Prepare(ref);
      }
      ParseTagsCollects(env.tags(ref), symbol);
      var t := symbolMap[ref];
      if symbol in t.entries {
        r := Some(t.entries[symbol]);
      } else {
        r := None;
      }
    }

    /** `_locate_similar_symbol`: the key nearest to `symbol` in the table of
        `ref`, searched only when that ref was prepared. */
    method LocateSimilarSymbol(ref: string, symbol: string) returns (locs: Option<seq<Location>>, nearest: Option<string>)
      requires Valid()
      ensures var t := if ref in symbolMap then symbolMap[ref] else EmptyTable;
        nearest == NearestKey(t, symbol)
        && (nearest.Some? ==> nearest.value in t.entries)
        && locs == if nearest.Some? then Some(t.entries[nearest.value]) else None
    {
      var t := if ref in symbolMap then symbolMap[ref] else EmptyTable;
      if ref in symbolMap {
        ParseTagsCollects(env.tags(ref), symbol);
      }
      locs, nearest := LocateSimilar(t, symbol);
    }

    /** `_viewcode` on the committed tree of `ref`. */
    method ViewCode(ref: string, path: string, startline: int, endline: int) returns (r: Result<string>)
      ensures var tree := env.files(ref, []);
        r == Feedback.ViewCodeText(if path in tree then Some(tree[path]) else None, startline, endline)
    {
      var tree := env.files(ref, []);
      r := Feedback.ViewCode(if path in tree then Some(tree[path]) else None, startline, endline);
    }

    /** `_apply_hunk`. */
    method ApplyHunk(ref: string, patch: string, force: bool, fuel: nat) returns (r: Result<string>)
      requires Valid()
      modifies this`succeededPatches, this`roundSucceeded, this`symbolMap
      decreases fuel, 0, 0
      ensures Valid() && symbolMap.Keys <= old(symbolMap.Keys) + {ref}
      ensures var o := HunkOutcome(env, utils, texts, ref, patch, force, fuel);
        r == o.text
        && succeededPatches == old(succeededPatches) + o.applied
        && roundSucceeded == (old(roundSucceeded) || o.applied != [])
    {
      if fuel == 0 {
        return Err("RecursionError");
      }
      var revised := utils.revise(patch, env.files(ref, []), force);
      var answer := env.apply(ref, [], revised);
      if answer.None? {
        succeededPatches := succeededPatches + [revised];
        roundSucceeded := true;
        return Ok(texts.applied);
      }
      if Contains(answer.value, "No such file") {
        r := MoveFileHandling(ref, revised, fuel - 1);
      } else if Contains(answer.value, "corrupt patch") {
        r := Ok(texts.corrupt);
      } else {
        var fb := utils.diagnose(env.files(ref, []), env.walk(ref, []), ref, revised);
        if fb.Err? {
          return Err(fb.why);
        }
        var (block, differ) := fb.value;
        r := Ok(MismatchReply(texts, block, differ));
      }
    }

    /** `_apply_file_move_handling`. */
    method MoveFileHandling(ref: string, oldPatch: string, fuel: nat) returns (r: Result<string>)
      requires Valid()
      modifies this`succeededPatches, this`roundSucceeded, this`symbolMap
      decreases fuel, 2, 0
      ensures Valid() && symbolMap.Keys <= old(symbolMap.Keys) + {ref}
      ensures var o := MoveOutcome(env, utils, texts, ref, oldPatch, fuel);
        r == o.text
        && succeededPatches == old(succeededPatches) + o.applied
        && roundSucceeded == (old(roundSucceeded) || o.applied != [])
    {
      var missing := Repair.HeaderPath(oldPatch, "--- a/");
      if missing.None? {
        return Err("IndexError");
      }
      var paths: seq<string>;
      var diff := env.renamed(missing.value);
      if diff != "" {
        var fields := Split(diff, '\t');
        if |fields| < 2 {
          return Err("IndexError");
        }
        paths := [fields[1]];
      } else {
        paths := FindMovedPaths(ref, oldPatch, missing.value);
      }
      r := TryCandidates(ref, oldPatch, missing.value, paths, fuel);
    }

    /** The candidates by symbol or by file name when git reports no rename. */
    method FindMovedPaths(ref: string, oldPatch: string, missing: string) returns (paths: seq<string>)
      requires Valid()
      modifies this`symbolMap
      ensures Valid() && symbolMap.Keys <= old(symbolMap.Keys) + {ref}
      ensures paths == LocatedPaths(env, utils, ref, oldPatch, missing)
    {
      var pl := Split(oldPatch, '\n');
      if |pl| < 3 || env.symbolOf(pl[2]).None? {
        return SimilarPaths(env, utils, ref, missing);
      }
      var locs := LocateSymbol(ref, env.symbolOf(pl[2]).value);
      if locs.None? || locs.value == [] {
        paths := SimilarPaths(env, utils, ref, missing);
      } else {
        paths := PathsOf(locs.value);
      }
    }

    /** The loop of `_apply_file_move_handling` over the candidates. */
    method TryCandidates(ref: string, oldPatch: string, missing: string, paths: seq<string>, fuel: nat)
      returns (r: Result<string>)
      requires Valid()
      modifies this`succeededPatches, this`roundSucceeded, this`symbolMap
      decreases fuel, 1, 0
      ensures Valid() && symbolMap.Keys <= old(symbolMap.Keys) + {ref}
      ensures var o := TryPaths(env, utils, texts, ref, oldPatch, missing, paths, 0, "", fuel);
        r == o.text
        && succeededPatches == old(succeededPatches) + o.applied
        && roundSucceeded == (old(roundSucceeded) || o.applied != [])
    {
      var tried := "";
      var k := 0;
      ghost var acc: seq<string> := [];
      while k < |paths|
        invariant k <= |paths|
        invariant Valid() && symbolMap.Keys <= old(symbolMap.Keys) + {ref}
        invariant var rest := TryPaths(env, utils, texts, ref, oldPatch, missing, paths, k, tried, fuel);
          TryPaths(env, utils, texts, ref, oldPatch, missing, paths, 0, "", fuel) == Outcome(rest.text, acc + rest.applied)
        invariant succeededPatches == old(succeededPatches) + acc
        invariant roundSucceeded == (old(roundSucceeded) || acc != [])
      {
        var t := ApplyHunk(ref, Replace(oldPatch, missing, paths[k]), false, fuel);
        ghost var o := HunkOutcome(env, utils, texts, ref, Replace(oldPatch, missing, paths[k]), false, fuel);
        AppendTwice(old(succeededPatches), acc, o.applied);
        if t.Err? {
          return t;
        }
        if Contains(t.value, "successfully") {
          return Ok(MovedTo(texts, missing, paths[k]));
        }
        AppendTwice(acc, o.applied, TryPaths(env, utils, texts, ref, oldPatch, missing, paths, k + 1, tried + t.value, fuel).applied);
        acc := acc + o.applied;
        tried := tried + t.value;
        k := k + 1;
      }
      return Ok(MovedSomewhere(texts, paths, tried));
    }

    /** `_compile_patch`. */
    method CompilePatch(ref: string, complete: string, force: bool, build: Script) returns (r: Result<string>)
      modifies this`compileSucceeded
      ensures var (c, ok) := CompileOutcome(env, utils, texts, ref, complete, force, build);
        r == c && compileSucceeded == (old(compileSucceeded) || ok)
    {
      var units := utils.split(complete);
      var applied: seq<string> := [];
      var idx := 0;
      while idx < |units|
        invariant idx <= |units|
        invariant ApplyUnits(env, utils, ref, units, force, idx) == Applying(applied)
      {
        var rv := utils.revise(units[idx], env.files(ref, applied), force);
        if env.apply(ref, applied, rv).Some? {
          ApplyUnitsFailedStays(env, utils, ref, units, force, idx + 1, |units|);
          var fb := utils.diagnose(env.files(ref, []), env.walk(ref, applied), ref, rv);
          if fb.Err? {
            return Err(fb.why);
          }
          return Ok(ApplyFailure(texts, idx, fb.value.0, fb.value.1));
        }
        applied := applied + [rv];
        idx := idx + 1;
      }
      match build
      case Absent =>
        compileSucceeded := true;
        r := Ok(texts.compiled);
      case TimedOut =>
        r := Err("SystemExit");
      case Finished(code, output) =>
        if code != 0 {
          r := Ok(CompileFailure(texts, ErrorLines(output)));
        } else {
          compileSucceeded := true;
          r := Ok(texts.compiled);
        }
    }

    /** `_run_testcase`. */
    method RunTestcase(test: Script) returns (r: string)
      modifies this`compileSucceeded, this`testcaseSucceeded
      ensures r == TestReply(texts, test) && State() == TestFlags(old(State()), test)
    {
      match test
      case Absent =>
        testcaseSucceeded := true;
        r := texts.testPassed;
      case TimedOut =>
        r := texts.timeout;
      case Finished(code, output) =>
        if code != 0 {
          compileSucceeded := false;
          r := TestFailure(texts, output);
        } else {
          testcaseSucceeded := true;
          r := texts.testPassed;
        }
    }

    /** `_run_poc`. */
    method RunPoc(complete: string, poc: Script) returns (r: string)
      modifies this`succeededPatches, this`compileSucceeded, this`testcaseSucceeded, this`pocSucceeded
      ensures r == PocReply(texts, errMsg, poc) && State() == PocFlags(old(State()), errMsg, complete, poc)
    {
      match poc
      case Absent =>
        pocSucceeded := true;
        succeededPatches := [complete];
        r := texts.notTriggered;
      case TimedOut =>
        r := texts.timeout;
      case Finished(_, output) =>
        if Contains(output, errMsg) {
          compileSucceeded := false;
          testcaseSucceeded := false;
          r := PocFailure(texts, output);
        } else {
          succeededPatches := [complete];
          pocSucceeded := true;
          r := texts.notTriggered;
        }
    }

    /** `_validate`. */
    method Validate(ref: string, patch: string, build: Script, test: Script, poc: Script, fuel: nat)
      returns (r: Result<string>)
      requires Valid()
      modifies this
      ensures Valid()
      ensures (r, State()) == ValidateOutcome(env, utils, texts, errMsg, old(State()), ref, patch, build, test, poc, fuel)
    {
      if allHunksAppliedSucceeded {
        r := ValidateWhole(ref, patch, build, test, poc);
      } else {
        r := ValidateHunk(ref, patch, fuel);
      }
    }

    /** The whole-patch phase of `_validate`. */
    method ValidateWhole(ref: string, patch: string, build: Script, test: Script, poc: Script)
      returns (r: Result<string>)
      modifies this`succeededPatches, this`contextMismatchTimes, this`compileSucceeded,
               this`testcaseSucceeded, this`pocSucceeded
      ensures var c := CompileOutcome(env, utils, texts, ref, patch, old(contextMismatchTimes) >= 1, build);
        r == WholeReply(texts, old(State()), errMsg, patch, c, test, poc)
        && State() == WholeFlags(old(State()), errMsg, patch, c, test, poc)
    {
      var ret := CompileStage(ref, patch, build);
      if ret.Err? {
        return ret;
      }
      var stages := RunStages(patch, test, poc);
      return Ok(ret.value + stages);
    }

    /** The compile step of `_validate`. */
    method CompileStage(ref: string, patch: string, build: Script) returns (r: Result<string>)
      modifies this`contextMismatchTimes, this`compileSucceeded
      ensures (r, State()) == CompileStep(old(State()), CompileOutcome(env, utils, texts, ref, patch, old(contextMismatchTimes) >= 1, build))
    {
      r := Ok("");
      if !compileSucceeded {
        r := CompilePatch(ref, patch, contextMismatchTimes >= 1, build);
        if r.Ok? {
          contextMismatchTimes := contextMismatchTimes + 1;
        }
      }
    }

    /** The test and PoC stages of `_validate`, each run when the earlier
        ones have passed and it has not. */
    method RunStages(patch: string, test: Script, poc: Script) returns (r: string)
      modifies this`succeededPatches, this`compileSucceeded, this`testcaseSucceeded, this`pocSucceeded
      ensures r == StagesReply(texts, old(State()), errMsg, patch, test, poc)
      ensures State() == StagesFlags(old(State()), errMsg, patch, test, poc)
    {
      var t := "";
      if compileSucceeded && !testcaseSucceeded {
        t := RunTestcase(test);
      }
      var p := "";
      if compileSucceeded && testcaseSucceeded && !pocSucceeded {
        p := RunPoc(patch, poc);
      }
      r := t + p;
    }

    /** The per-hunk phase of `_validate`. */
    method ValidateHunk(ref: string, patch: string, fuel: nat) returns (r: Result<string>)
      requires Valid()
      modifies this`succeededPatches, this`roundSucceeded, this`contextMismatchTimes, this`symbolMap
      ensures Valid()
      ensures var o := HunkOutcome(env, utils, texts, ref, patch, old(contextMismatchTimes) >= 2, fuel);
        r == HunkReply(texts, patch, o) && State() == HunkFlags(old(State()), patch, o)
    {
      if Contains(patch, "need not ported") {
        roundSucceeded := true;
        return Ok(texts.applied);
      }
      r := ApplyHunk(ref, patch, contextMismatchTimes >= 2, fuel);
      if r.Ok? && Contains(r.value, MismatchName) {
        contextMismatchTimes := contextMismatchTimes + 1;
      }
    }
  }
}
