/** The architecture rule of the pre-judge (`ArchAnalyzer`): a commit that
    touches `arch/<name>/...` for an architecture the downstream kernel does
    not build is not backported. */
module JudgeArch {
  import opened Results
  import opened Text

  /** The architectures the downstream kernel supports. */
  const SupportedArchs: set<string> := {"arm", "arm64", "x86", "riscv", "loongarch", "powerpc", "sw_64"}

  const ArchDir := "arch/"

  /** `get_patch_files`: the stripped, non-empty lines of the output of
      `git show --name-only`; no files when the command failed (None). */
  function PatchFiles(stdout: Option<string>): (r: seq<string>)
    ensures forall i :: 0 <= i < |r| ==> r[i] != []
  {
    match stdout
    case None => []
    case Some(out) => NonEmptyStripped(SplitLines(out))
  }

  function NonEmptyStripped(lines: seq<string>): (r: seq<string>)
    ensures forall i :: 0 <= i < |r| ==> r[i] != []
  {
    if lines == [] then []
    else
      var f := Strip(lines[0]);
      (if f == [] then [] else [f]) + NonEmptyStripped(lines[1..])
  }

  /** `get_arch_from_path`: for a path under `arch/`, the segment after it
      up to the next `/` (the regular expression `arch/([^/]+)` needs it
      non-empty); None for every other path. */
  function ArchOf(path: string): (r: Option<string>)
    ensures r.Some? <==> StartsWith(path, ArchDir) && |path| > |ArchDir| && path[|ArchDir|] != '/'
    ensures r.Some? ==>
      var n := |ArchDir| + |r.value|;
      r.value != [] && '/' !in r.value && StartsWith(path, ArchDir + r.value)
      && (n == |path| || path[n] == '/')
  {
    if !StartsWith(path, ArchDir) then None
    else
      var rest := path[|ArchDir|..];
      var seg := rest[..IndexOfChar(rest, '/')];
      assert path[..|ArchDir| + |seg|] == ArchDir + seg;
      if seg == [] then None else Some(seg)
  }

  /** `is_supported_arch`: membership of the lower-cased name. */
  predicate IsSupportedArch(arch: string) {
    Lower(arch) in SupportedArchs
  }

  /** The check ignores the case of ASCII letters. */
  lemma SupportedIgnoresCase(arch: string)
    ensures IsSupportedArch(Lower(arch)) == IsSupportedArch(arch)
  {
    LowerIdempotent(arch);
  }

  /** One entry of `arch_changes`. */
  datatype ArchChange = ArchChange(file: string, arch: string, supported: bool)

  /** The result of `analyze`. `Failed` is the answer without
      `all_supported` (no file list); `unsupported` is empty when there are
      no architecture changes. */
  datatype ArchReport =
    | Failed
    | Report(hasArchChanges: bool, allSupported: bool, changes: seq<ArchChange>, unsupported: set<string>)

  /** The files under `arch/`, in order, each with its architecture. */
  function ArchChanges(files: seq<string>): seq<ArchChange>
  {
    if files == [] then []
    else
      var init := ArchChanges(files[..|files| - 1]);
      var f := files[|files| - 1];
      match ArchOf(f)
      case None => init
      case Some(a) => init + [ArchChange(f, a, IsSupportedArch(a))]
  }

  /** Every change names a file of the list with its architecture and
      whether it is supported, and every file under an architecture
      directory gives a change. */
  lemma {:induction false} ArchChangesSpec(files: seq<string>)
    ensures forall c :: c in ArchChanges(files) ==>
      c.file in files && ArchOf(c.file) == Some(c.arch) && c.supported == IsSupportedArch(c.arch)
    ensures forall f :: f in files && ArchOf(f).Some? ==> ArchChange(f, ArchOf(f).value, IsSupportedArch(ArchOf(f).value)) in ArchChanges(files)
  {
    if files != [] {
      var init := files[..|files| - 1];
      ArchChangesSpec(init);
      assert files == init + [files[|files| - 1]];
    }
  }

  /** `analyze`: the loop that collects the architecture changes, then the
      loop that clears `all_supported` and collects the unsupported
      architectures. */
  method Analyze(files: seq<string>) returns (r: ArchReport)
    ensures files == [] <==> r.Failed?
    ensures r.Report? ==>
      r.changes == ArchChanges(files)
      && r.hasArchChanges == (r.changes != [])
      && (r.allSupported <==> forall i :: 0 <= i < |r.changes| ==> r.changes[i].supported)
      && r.unsupported == set i | 0 <= i < |r.changes| && !r.changes[i].supported :: r.changes[i].arch
  {
    if files == [] {
      return Failed;
    }
    var changes: seq<ArchChange> := [];
    var i := 0;
    while i < |files|
      invariant i <= |files|
      invariant changes == ArchChanges(files[..i])
    {
      assert files[..i + 1][..i] == files[..i];
      var arch := ArchOf(files[i]);
      if arch.Some? {
        changes := changes + [ArchChange(files[i], arch.value, IsSupportedArch(arch.value))];
      }
      i := i + 1;
    }
    assert files[..i] == files;
    var allSupported := true;
    var unsupported: set<string> := {};
    var k := 0;
    while k < |changes|
      invariant k <= |changes|
      invariant allSupported <==> forall j :: 0 <= j < k ==> changes[j].supported
      invariant unsupported == set j | 0 <= j < k && !changes[j].supported :: changes[j].arch
    {
      if !changes[k].supported {
        allSupported := false;
        unsupported := unsupported + {changes[k].arch};
      }
      k := k + 1;
    }
    if changes == [] {
      return Report(false, true, [], {});
    }
    r := Report(true, allSupported, changes, unsupported);
  }

  /** `should_backport`: the report's `all_supported`, True when the report
      has none. */
  method ShouldBackport(files: seq<string>) returns (b: bool)
    ensures b <==> forall f :: f in files && ArchOf(f).Some? ==> IsSupportedArch(ArchOf(f).value)
  {
    var r := Analyze(files);
    b := if r.Report? then r.allSupported else true;
    ArchChangesSpec(files);
    if !b {
      var i :| 0 <= i < |r.changes| && !r.changes[i].supported;
      assert r.changes[i] in ArchChanges(files);
    }
  }

  /** `has_arch_specific_changes`: True at the first file under an
      architecture directory. */
  method HasArchSpecificChanges(files: seq<string>) returns (b: bool)
    ensures b <==> exists i :: 0 <= i < |files| && ArchOf(files[i]).Some?
  {
    var i := 0;
    while i < |files|
      invariant i <= |files|
      invariant forall j :: 0 <= j < i ==> ArchOf(files[j]).None?
    {
      if ArchOf(files[i]).Some? {
        return true;
      }
      i := i + 1;
    }
    return false;
  }
}
