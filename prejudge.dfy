/** The pre-judge controller (`PrejudgeController`): the wrappers around
    the four judges, the check that some required CONFIG is built by some
    architecture, and the order of the gates that decides whether a commit
    is worth backporting. What the repositories, the files and the language
    model answer comes in as values. */
module Prejudge {
  import opened Results
  import opened Text
  import JudgeFix
  import JudgeArch
  import PatchConfig

  // ---------------------------------------------------------------------
  // check_config_in_arch_configs

  /** The architectures whose kernel configuration is consulted. */
  const ArchConfigs: seq<string> := ["x86", "arm64", "riscv", "powerpc", "sw_64"]

  /** The `config_data` directory: None when it does not exist; for each
      architecture, the lines of its configuration file, None when the file
      does not exist or cannot be read. */
  type ConfigData = Option<string -> Option<seq<string>>>

  /** `config_str.split('=')[0]`: the text before the first `=`. */
  function ConfigName(s: string): (r: string)
    ensures '=' !in r
  {
    BeforeFirst(s, '=')
  }

  /** The line, stripped, sets `name`, and `split('=', 1)[1]`, the text
      after its first `=`, is `y` or `m`. */
  predicate LineEnables(line: string, name: string) {
    var l := Strip(line);
    var v := AfterFirst(l, '=');
    StartsWith(l, name + "=") && v.Some? && (v.value == "y" || v.value == "m")
  }

  /** For a name without `=`, a line enables it exactly when it reads
      `NAME=y` or `NAME=m` once stripped. */
  lemma LineEnablesIff(line: string, name: string)
    requires '=' !in name
    ensures LineEnables(line, name) <==> Strip(line) == name + "=y" || Strip(line) == name + "=m"
  {
    EnablesStripped(Strip(line), name);
  }

  /** The same for the stripped line `l`. */
  lemma EnablesStripped(l: string, name: string)
    requires '=' !in name
    ensures (StartsWith(l, name + "=") && AfterFirst(l, '=').Some?
             && (AfterFirst(l, '=').value == "y" || AfterFirst(l, '=').value == "m"))
      <==> l == name + "=y" || l == name + "=m"
  {
    var p := name + "=";
    if StartsWith(l, p) {
      var v := l[|name| + 1..];
      AfterNameIs(l, name);
      assert l == p + v;
      assert l == name + "=y" <==> v == "y";
      assert l == name + "=m" <==> v == "m";
    } else {
      assert StartsWith(name + "=y", p);
      assert StartsWith(name + "=m", p);
    }
  }

  /** After `NAME=` with a name without `=`, `split('=', 1)[1]` is the rest
      of the line. */
  lemma AfterNameIs(l: string, name: string)
    requires '=' !in name && StartsWith(l, name + "=")
    ensures AfterFirst(l, '=') == Some(l[|name| + 1..])
  {
    var p := name + "=";
    assert l[..|p|] == p;
    forall i | 0 <= i < |name|
      ensures l[i] != '='
    {
      assert l[i] == p[i];
    }
    assert l[|name|] == '=';
    assert IndexOfChar(l, '=') == |name|;
  }

  /** Some line of some architecture's file enables `name`. */
  ghost predicate EnabledIn(name: string, data: string -> Option<seq<string>>) {
    exists a, j :: 0 <= a < |ArchConfigs| && data(ArchConfigs[a]).Some?
      && 0 <= j < |data(ArchConfigs[a]).value| && LineEnables(data(ArchConfigs[a]).value[j], name)
  }

  /** What `check_config_in_arch_configs` answers: an empty set, or a
      missing directory, passes; otherwise some CONFIG must be enabled in
      some architecture. */
  ghost predicate ConfigGate(configs: set<string>, data: ConfigData) {
    configs == {} || data.None? || exists c :: c in configs && EnabledIn(ConfigName(c), data.value)
  }

  /** `check_config_in_arch_configs`: the loop over the configs, each looked
      up in every architecture's file line by line, True at the first line
      that enables one. */
  method CheckConfigInArchConfigs(configs: set<string>, data: ConfigData) returns (b: bool)
    ensures b == ConfigGate(configs, data)
  {
    if configs == {} {
      return true;
    }
    if data.None? {
      return true;
    }
    var todo := configs;
    while todo != {}
      invariant todo <= configs
      invariant forall c :: c in configs - todo ==> !EnabledIn(ConfigName(c), data.value)
      decreases |todo|
    {
      var configStr :| configStr in todo;
      var found := EnabledAnywhere(ConfigName(configStr), data.value);
      if found {
        return true;
      }
      todo := todo - {configStr};
    }
    assert configs - todo == configs;
    return false;
  }

  /** The two inner loops, over the architectures and the lines of each. */
  method EnabledAnywhere(name: string, data: string -> Option<seq<string>>) returns (found: bool)
    ensures found == EnabledIn(name, data)
  {
    var a := 0;
    while a < |ArchConfigs|
      invariant a <= |ArchConfigs|
      invariant forall a', j :: (0 <= a' < a && data(ArchConfigs[a']).Some? && 0 <= j < |data(ArchConfigs[a']).value|
        ==> !LineEnables(data(ArchConfigs[a']).value[j], name))
    {
      var file := data(ArchConfigs[a]);
      if file.Some? {
        var j := 0;
        while j < |file.value|
          invariant j <= |file.value|
          invariant forall j' :: 0 <= j' < j ==> !LineEnables(file.value[j'], name)
        {
          if LineEnables(file.value[j], name) {
            return true;
          }
          j := j + 1;
        }
      }
      a := a + 1;
    }
    return false;
  }

  // ---------------------------------------------------------------------
  // The judge wrappers

  /** `judge_fix`: the fix rule on the commit message, True when the
      analyzer raised (Err). */
  ghost predicate FixGate(msg: Result<string>, repo: JudgeFix.Repo) {
    msg.Err? || forall c :: c in JudgeFix.TagIds(JudgeFix.FixTags, msg.value) ==> JudgeFix.CommitExists(repo, c)
  }

  method JudgeFixGate(msg: Result<string>, repo: JudgeFix.Repo) returns (b: bool)
    ensures b == FixGate(msg, repo)
  {
    if msg.Err? {
      return true;
    }
    b := JudgeFix.ShouldProceed(msg.value, repo);
  }

  /** `judge_arch`: the architecture rule on the output of
      `git show --name-only`, True when the analyzer raised (Err). */
  ghost predicate ArchGate(names: Result<Option<string>>) {
    names.Err? ||
      var files := JudgeArch.PatchFiles(names.value);
      forall f :: f in files && JudgeArch.ArchOf(f).Some? ==> JudgeArch.IsSupportedArch(JudgeArch.ArchOf(f).value)
  }

  method JudgeArchGate(names: Result<Option<string>>) returns (b: bool)
    ensures b == ArchGate(names)
  {
    if names.Err? {
      return true;
    }
    b := JudgeArch.ShouldBackport(JudgeArch.PatchFiles(names.value));
  }

  /** `judge_agent_llm`: the agent's answer, True when it raised (Err). */
  function LlmGate(answer: Result<bool>): (b: bool)
    ensures !b <==> answer == Ok(false)
  {
    if answer.Err? then true else answer.value
  }

  /** `judge_config`: `NAME=y` for each CONFIG the patch needs; nothing
      when writing the temporary patch file raised (`written` false). */
  function ConfigSet(patch: string, tree: PatchConfig.Tree, written: bool): set<string> {
    if !written then {} else set n | n in PatchConfig.PatchConfigs(Some(patch), tree) :: n + "=y"
  }

  method JudgeConfigGate(patch: string, tree: PatchConfig.Tree, written: bool) returns (r: set<string>)
    ensures r == ConfigSet(patch, tree, written)
  {
    if !written {
      return {};
    }
    var configs := PatchConfig.AnalyzePatch(Some(patch), tree);
    r := set n | n in configs :: n + "=y";
  }

  /** The check reads back the name of each formatted CONFIG. */
  lemma ConfigNameOfFormatted(n: string)
    requires '=' !in n
    ensures ConfigName(n + "=y") == n
  {
    assert (n + "=y")[|n|] == '=';
    forall k | 0 <= k < |n|
      ensures (n + "=y")[k] != '='
    {
      assert (n + "=y")[k] == n[k];
    }
    assert IndexOfChar(n + "=y", '=') == |n|;
  }

  /** `analyze_config`: the `config` entry only when the set is not
      empty. */
  function AnalyzeConfig(configs: set<string>): (r: map<string, set<string>>)
    ensures r.Keys <= {"config"} && ("config" in r <==> configs != {})
    ensures "config" in r ==> r["config"] == configs
  {
    if configs == {} then map[] else map["config" := configs]
  }

  // ---------------------------------------------------------------------
  // analyze_and_report

  const TrueText := "true"
  const FalseText := "false"
  const NoPatchText := "Error: Could not retrieve patch content. Please check the commit ID and repository."

  /** Everything the gates consult about one commit: the commit message
      for the fix rule (Err when the analyzer raised) and the downstream
      repository; the output of `git show` (None when it failed or timed
      out); the kernel tree and whether the temporary patch file could be
      written; the `config_data` directory; the output of
      `git show --name-only` for the architecture rule; the agent's
      answer. */
  datatype Commit = Commit(
    fixMessage: Result<string>, repo: JudgeFix.Repo,
    show: Option<string>,
    tree: PatchConfig.Tree, written: bool,
    configData: ConfigData,
    names: Result<Option<string>>,
    answer: Result<bool>)

  /** `get_patch_from_commit`: the empty text when `git show` failed. */
  function PatchText(show: Option<string>): string {
    if show.None? then "" else show.value
  }

  /** What `analyze_and_report` prints. */
  ghost function Verdict(c: Commit): string {
    if !FixGate(c.fixMessage, c.repo) then FalseText
    else if PatchText(c.show) == "" then NoPatchText
    else if !ConfigGate(ConfigSet(PatchText(c.show), c.tree, c.written), c.configData) then FalseText
    else if !ArchGate(c.names) then FalseText
    else if LlmGate(c.answer) then TrueText
    else FalseText
  }

  /** `analyze_and_report`: the gates in order, each negative one printing
      "false" and stopping; the configs of the `analyze_config` results are
      gathered in a loop before the architecture-config check. */
  method AnalyzeAndReport(c: Commit) returns (out: string)
    ensures out == Verdict(c)
  {
    var fixExists := JudgeFixGate(c.fixMessage, c.repo);
    if !fixExists {
      return FalseText;
    }
    var patchContent := PatchText(c.show);
    if patchContent == "" {
      return NoPatchText;
    }
    var configs := JudgeConfigGate(patchContent, c.tree, c.written);
    var results := AnalyzeConfig(configs);
    var allConfigs := GatherConfigs(results);
    assert allConfigs == configs;
    var isEnabled := CheckConfigInArchConfigs(allConfigs, c.configData);
    if !isEnabled {
      return FalseText;
    }
    var archSupported := JudgeArchGate(c.names);
    if !archSupported {
      return FalseText;
    }
    out := if LlmGate(c.answer) then TrueText else FalseText;
  }

  /** The loop of `analyze_and_report` over the values of the results. */
  method GatherConfigs(results: map<string, set<string>>) returns (allConfigs: set<string>)
    ensures forall x :: x in allConfigs <==> exists k :: k in results && x in results[k]
  {
    allConfigs := {};
    var todo := results.Keys;
    while todo != {}
      invariant todo <= results.Keys
      invariant forall x :: x in allConfigs <==> exists k :: k in results.Keys - todo && x in results[k]
      decreases |todo|
    {
      var k :| k in todo;
      allConfigs := allConfigs + results[k];
      todo := todo - {k};
    }
  }

  /** A commit is worth backporting exactly when every gate passes: its
      fixes exist downstream, its patch could be read, some CONFIG it needs
      is built somewhere (or it needs none), its architectures are
      supported, and the agent did not answer no. */
  lemma VerdictTrueIff(c: Commit)
    ensures Verdict(c) == TrueText <==>
      FixGate(c.fixMessage, c.repo) && PatchText(c.show) != ""
      && ConfigGate(ConfigSet(PatchText(c.show), c.tree, c.written), c.configData)
      && ArchGate(c.names) && c.answer != Ok(false)
  {
  }

  /** The error is printed exactly when the fix rule passes and the patch
      cannot be read; every other outcome is "true" or "false". */
  lemma VerdictNoPatchIff(c: Commit)
    ensures Verdict(c) == NoPatchText <==> FixGate(c.fixMessage, c.repo) && PatchText(c.show) == ""
    ensures Verdict(c) in {TrueText, FalseText, NoPatchText}
  {
  }

  /** The fix rule comes first: when it fails, nothing else about the
      commit matters. */
  lemma FixGateFirst(c: Commit, d: Commit)
    requires c.fixMessage == d.fixMessage && c.repo == d.repo && !FixGate(c.fixMessage, c.repo)
    ensures Verdict(c) == Verdict(d) == FalseText
  {
  }

  /** A patch that needs no CONFIG passes the configuration check, whatever
      the `config_data` directory holds. */
  lemma NoConfigsPass(patch: string, tree: PatchConfig.Tree, written: bool, data: ConfigData)
    requires PatchConfig.PatchConfigs(Some(patch), tree) == {}
    ensures ConfigGate(ConfigSet(patch, tree, written), data)
  {
  }
}
