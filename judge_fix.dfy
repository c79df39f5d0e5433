/** The fix-tag rule of the pre-judge (`FixCommitAnalyzer`): the commits a
    patch says it fixes must already be in the downstream repository. */
module JudgeFix {
  import opened Results
  import opened Text

  /** The tags that introduce a commit id, one regular expression
      `<tag>\s+([0-9a-f]{7,40})` each. */
  const FixTags: seq<string> := ["Fixes:", "Fix:", "fixes:", "fix:", "Commit:", "commit:"]

  const MinId := 7
  const MaxId := 40

  predicate IsHex(c: char) {
    '0' <= c <= '9' || 'a' <= c <= 'f'
  }

  /** A commit id as the patterns capture it: 7 to 40 lowercase hex digits. */
  predicate IsCommitId(s: string) {
    MinId <= |s| <= MaxId && forall i :: 0 <= i < |s| ==> IsHex(s[i])
  }

  /** The end of the run of hex digits that starts at `i`. */
  function HexEnd(s: string, i: nat): (r: nat)
    requires i <= |s|
    decreases |s| - i
    ensures i <= r <= |s|
    ensures forall k :: i <= k < r ==> IsHex(s[k])
    ensures r < |s| ==> !IsHex(s[r])
  {
    if i < |s| && IsHex(s[i]) then HexEnd(s, i + 1) else i
  }

  /** The pattern of `tag` matched at `k`: the tag, at least one whitespace
      character (all of them, as `\s+` is greedy and a hex digit is not
      whitespace), then the longest run of hex digits cut at 40, which must
      hold at least 7. The captured id and the end of the match. */
  function MatchAt(s: string, tag: string, k: nat): (r: Option<(string, nat)>)
    ensures r.Some? ==> IsCommitId(r.value.0) && k < r.value.1 <= |s|
  {
    if !OccursAt(s, tag, k) then None
    else
      var w := SkipForward(s, k + |tag|, None);
      if w == k + |tag| then None
      else
        var h := HexEnd(s, w);
        var n := if h - w > MaxId then MaxId else h - w;
        if n < MinId then None else Some((s[w..w + n], w + n))
  }

  /** `re.findall` of the pattern of `tag` from position `k` on: a match
      resumes the scan at its end, a miss at the next position. */
  function FindAll(s: string, tag: string, k: nat): (r: set<string>)
    decreases |s| - k
    ensures forall c :: c in r ==> IsCommitId(c)
  {
    if k >= |s| then {}
    else match MatchAt(s, tag, k)
      case Some((id, e)) => {id} + FindAll(s, tag, e)
      case None => FindAll(s, tag, k + 1)
  }

  /** The ids the tags of `tags` capture in `msg`. */
  function TagIds(tags: seq<string>, msg: string): (r: set<string>)
    ensures forall c :: c in r ==> IsCommitId(c)
  {
    if tags == [] then {} else TagIds(tags[..|tags| - 1], msg) + FindAll(msg, tags[|tags| - 1], 0)
  }

  /** `extract_fix_commits`: the union, pattern by pattern, of what each
      pattern finds. */
  method ExtractFixCommits(msg: string) returns (fixes: set<string>)
    ensures fixes == TagIds(FixTags, msg)
    ensures forall c :: c in fixes ==> IsCommitId(c)
  {
    fixes := {};
    var i := 0;
    while i < |FixTags|
      invariant i <= |FixTags|
      invariant fixes == TagIds(FixTags[..i], msg)
    {
      assert FixTags[..i + 1][..i] == FixTags[..i];
      fixes := fixes + FindAll(msg, FixTags[i], 0);
      i := i + 1;
    }
    assert FixTags[..i] == FixTags;
  }

  /** The scan of `re.findall` from `j` comes to rest at `k`: every match it
      makes on the way ends at or before `k`. */
  ghost predicate ScanVisits(s: string, tag: string, j: nat, k: nat)
    decreases k - j
  {
    j == k || (j < k && j < |s| &&
      match MatchAt(s, tag, j)
      case Some((_, e)) => e <= k && ScanVisits(s, tag, e, k)
      case None => ScanVisits(s, tag, j + 1, k))
  }

  /** What the scan finds from a position it comes to, it finds from the
      start. */
  lemma {:induction false} VisitedIncluded(s: string, tag: string, j: nat, k: nat)
    requires ScanVisits(s, tag, j, k)
    decreases k - j
    ensures FindAll(s, tag, k) <= FindAll(s, tag, j)
  {
    if j != k {
      match MatchAt(s, tag, j)
      case Some((_, e)) => VisitedIncluded(s, tag, e, k);
      case None => VisitedIncluded(s, tag, j + 1, k);
    }
  }

  /** Text in which the pattern matches nowhere before `k` is scanned up
      to `k`. */
  lemma {:induction false} NoMatchVisits(s: string, tag: string, j: nat, k: nat)
    requires j <= k <= |s|
    requires forall p :: j <= p < k ==> MatchAt(s, tag, p).None?
    decreases k - j
    ensures ScanVisits(s, tag, j, k)
  {
    if j < k {
      NoMatchVisits(s, tag, j + 1, k);
    }
  }

  /** At the tag, the pattern captures the id and ends after it. */
  lemma MatchAtTag(s: string, pre: string, tag: string, ws: string, id: string, rest: string)
    requires s == pre + tag + ws + id + rest
    requires tag != [] && ws != [] && forall i :: 0 <= i < |ws| ==> IsSpace(ws[i])
    requires IsCommitId(id)
    requires rest == [] || !IsHex(rest[0])
    ensures MatchAt(s, tag, |pre|) == Some((id, |pre| + |tag| + |ws| + |id|))
  {
    var k := |pre|;
    var w := k + |tag| + |ws|;
    assert s[k..k + |tag|] == tag;
    SkipsWhitespace(pre + tag, ws, id, rest);
    ReadsHexRun(pre + tag, ws, id, rest);
    assert s[w..w + |id|] == id;
  }

  /** A tag, whitespace and an id of 7 to 40 hex digits that no further hex
      digit follows, at a position the scan comes to (no earlier match runs
      over it), yields that id. */
  lemma TagFound(s: string, pre: string, tag: string, ws: string, id: string, rest: string)
    requires s == pre + tag + ws + id + rest
    requires tag != [] && ws != [] && forall i :: 0 <= i < |ws| ==> IsSpace(ws[i])
    requires IsCommitId(id)
    requires rest == [] || !IsHex(rest[0])
    requires ScanVisits(s, tag, 0, |pre|)
    ensures id in FindAll(s, tag, 0)
  {
    MatchAtTag(s, pre, tag, ws, id, rest);
    assert id in FindAll(s, tag, |pre|);
    VisitedIncluded(s, tag, 0, |pre|);
  }

  /** What one tag's pattern finds is among the ids of a list holding it. */
  lemma {:induction false} TagIdsHas(tags: seq<string>, msg: string, i: nat)
    requires i < |tags|
    ensures FindAll(msg, tags[i], 0) <= TagIds(tags, msg)
  {
    if i < |tags| - 1 {
      TagIdsHas(tags[..|tags| - 1], msg, i);
    }
  }

  /** A fix tag followed by whitespace and a commit id, anywhere the scan of
      that tag's pattern comes to, puts the id among the extracted fixes. */
  lemma FixTagFound(t: nat, pre: string, ws: string, id: string, rest: string)
    requires t < |FixTags|
    requires ws != [] && forall i :: 0 <= i < |ws| ==> IsSpace(ws[i])
    requires IsCommitId(id)
    requires rest == [] || !IsHex(rest[0])
    requires ScanVisits(pre + FixTags[t] + ws + id + rest, FixTags[t], 0, |pre|)
    ensures id in TagIds(FixTags, pre + FixTags[t] + ws + id + rest)
  {
    var tag := FixTags[t];
    var s := pre + tag + ws + id + rest;
    assert tag != [] by { FixTagsNonEmpty(t); }
    TagFound(s, pre, tag, ws, id, rest);
    TagIdsHas(FixTags, s, t);
  }

  lemma FixTagsNonEmpty(t: nat)
    requires t < |FixTags|
    ensures FixTags[t] != []
  {
  }

  lemma SkipsWhitespace(tag: string, ws: string, id: string, rest: string)
    requires forall i :: 0 <= i < |ws| ==> IsSpace(ws[i])
    requires IsCommitId(id)
    ensures SkipForward(tag + ws + id + rest, |tag|, None) == |tag| + |ws|
  {
    var s := tag + ws + id + rest;
    var w := |tag| + |ws|;
    forall k | |tag| <= k < w
      ensures IsSpace(s[k])
    {
      assert s[k] == ws[k - |tag|];
    }
    assert s[w] == id[0];
    assert !IsSpace(id[0]);
  }

  lemma ReadsHexRun(tag: string, ws: string, id: string, rest: string)
    requires IsCommitId(id)
    requires rest == [] || !IsHex(rest[0])
    ensures HexEnd(tag + ws + id + rest, |tag| + |ws|) == |tag| + |ws| + |id|
  {
    var s := tag + ws + id + rest;
    var w := |tag| + |ws|;
    forall k | w <= k < w + |id|
      ensures IsHex(s[k])
    {
      assert s[k] == id[k - w];
    }
    if rest != [] {
      assert s[w + |id|] == rest[0];
    }
  }

  /** Whether a fix commit is in the downstream repository at all, and in
      its OLK-6.6 branch: `git cat-file -e` succeeded, and the output of
      `git branch --contains` (None when that command failed). Timeouts read
      as failures. */
  datatype Repo = Repo(catFile: string -> bool, branches: string -> Option<string>)

  const OlkBranch := "OLK-6.6"

  /** `check_commit_exists`. */
  predicate CommitExists(repo: Repo, id: string) {
    repo.catFile(id)
  }

  /** `check_commit_in_branch`: the commit exists and the branch name occurs
      in the list of branches that contain it. */
  function CommitInBranch(repo: Repo, id: string, branch: string): (r: bool)
    ensures r ==> CommitExists(repo, id)
  {
    repo.catFile(id) && repo.branches(id).Some? && Contains(repo.branches(id).value, branch)
  }

  /** One entry of the report's `fix_commits`. */
  datatype FixCheck = FixCheck(id: string, inRepo: bool, inOlk: bool)

  /** The result of `analyze`: `NoMessage` is the answer without
      `all_exist`. */
  datatype FixReport = NoMessage | Report(checks: set<FixCheck>, allExist: bool)

  /** `analyze` on the commit message (`""` when `git log` failed): each
      extracted id is checked; `all_exist` is cleared by an id missing from
      the repository, and the branch check is reported only. */
  method Analyze(msg: string, repo: Repo) returns (r: FixReport)
    ensures msg == [] <==> r.NoMessage?
    ensures r.Report? ==>
      var fixes := TagIds(FixTags, msg);
      (r.allExist <==> forall c :: c in fixes ==> CommitExists(repo, c))
      && r.checks == set c | c in fixes :: FixCheck(c, CommitExists(repo, c), CommitInBranch(repo, c, OlkBranch))
  {
    if msg == [] {
      return NoMessage;
    }
    var fixes := ExtractFixCommits(msg);
    if fixes == {} {
      return Report({}, true);
    }
    var checks, allExist := CheckAll(fixes, repo);
    r := Report(checks, allExist);
  }

  /** The loop of `analyze` over the extracted ids. */
  method CheckAll(fixes: set<string>, repo: Repo) returns (checks: set<FixCheck>, allExist: bool)
    ensures allExist <==> forall c :: c in fixes ==> CommitExists(repo, c)
    ensures checks == set c | c in fixes :: FixCheck(c, CommitExists(repo, c), CommitInBranch(repo, c, OlkBranch))
  {
    checks, allExist := {}, true;
    var todo := fixes;
    while todo != {}
      invariant todo <= fixes
      invariant checks == set c | c in fixes - todo :: FixCheck(c, CommitExists(repo, c), CommitInBranch(repo, c, OlkBranch))
      invariant allExist <==> forall c :: c in fixes - todo ==> CommitExists(repo, c)
      decreases |todo|
    {
      var c :| c in todo;
      var found := CommitExists(repo, c);
      checks := checks + {FixCheck(c, found, CommitInBranch(repo, c, OlkBranch))};
      if !found {
        allExist := false;
      }
      todo := todo - {c};
    }
  }

  /** `should_proceed`: the report's `all_exist`, True when it has none. So
      the commit goes on exactly when every id its message names exists
      downstream; a missing message names none. */
  method ShouldProceed(msg: string, repo: Repo) returns (b: bool)
    ensures b <==> forall c :: c in TagIds(FixTags, msg) ==> CommitExists(repo, c)
  {
    var r := Analyze(msg, repo);
    b := if r.Report? then r.allExist else true;
    if msg == [] {
      NoIdsInEmpty(FixTags);
    }
  }

  lemma {:induction false} NoIdsInEmpty(tags: seq<string>)
    ensures TagIds(tags, []) == {}
  {
    if tags != [] {
      NoIdsInEmpty(tags[..|tags| - 1]);
    }
  }
}
