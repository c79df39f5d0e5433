/** The regular expressions the configuration analyser uses to pick
    `CONFIG_` symbols out of Makefile lines and preprocessor conditions,
    written out as scanners: `\$\((CONFIG_[A-Z0-9_]+)\)`,
    `defined\s*\(\s*(CONFIG_[A-Z0-9_]+)\s*\)` and
    `\b(CONFIG_[A-Z0-9_]+)\b`. */
module ConfigNames {
  import opened Results
  import opened Text

  const Prefix := "CONFIG_"

  /** `[A-Z0-9_]`. */
  predicate IsNameChar(c: char) {
    'A' <= c <= 'Z' || '0' <= c <= '9' || c == '_'
  }

  /** `\w` on ASCII text: letters, digits and the underscore. */
  predicate IsWordChar(c: char) {
    'a' <= c <= 'z' || 'A' <= c <= 'Z' || '0' <= c <= '9' || c == '_'
  }

  /** A symbol as the patterns capture it: `CONFIG_` and at least one more
      character of `[A-Z0-9_]`. */
  predicate IsConfigName(n: string) {
    StartsWith(n, Prefix) && |n| > |Prefix| && forall i :: 0 <= i < |n| ==> IsNameChar(n[i])
  }

  /** The end of the run of `[A-Z0-9_]` that starts at `i`. */
  function NameEnd(s: string, i: nat): (r: nat)
    requires i <= |s|
    decreases |s| - i
    ensures i <= r <= |s|
    ensures forall k :: i <= k < r ==> IsNameChar(s[k])
    ensures r < |s| ==> !IsNameChar(s[r])
  {
    if i < |s| && IsNameChar(s[i]) then NameEnd(s, i + 1) else i
  }

  /** `CONFIG_[A-Z0-9_]+` at `k`: the end of the symbol. The run is taken
      whole, since a shorter one would leave a name character where every
      pattern here expects something else. */
  function NameAt(s: string, k: nat): (r: Option<nat>)
    ensures r.Some? ==> k + |Prefix| < r.value <= |s| && IsConfigName(s[k..r.value])
    ensures r.Some? ==> r.value == |s| || !IsNameChar(s[r.value])
  {
    if !OccursAt(s, Prefix, k) then None
    else
      var e := NameEnd(s, k + |Prefix|);
      if e == k + |Prefix| then None
      else
        assert s[k..e][..|Prefix|] == Prefix;
        assert forall i :: 0 <= i < e - k ==> IsNameChar(s[k..e][i]) by {
          forall i | 0 <= i < e - k
            ensures IsNameChar(s[k..e][i])
          {
            if i < |Prefix| {
              assert s[k..e][i] == Prefix[i];
            }
          }
        }
        Some(e)
  }

  /** The run ends at the first character that is not a name character. */
  lemma {:induction false} NameEndAt(s: string, i: nat, j: nat)
    requires i <= j <= |s|
    requires forall k :: i <= k < j ==> IsNameChar(s[k])
    requires j == |s| || !IsNameChar(s[j])
    ensures NameEnd(s, i) == j
    decreases j - i
  {
    if i < j {
      NameEndAt(s, i + 1, j);
    }
  }

  // ---------------------------------------------------------------------
  // `\$\((CONFIG_[A-Z0-9_]+)\)`, searched for

  /** The first `$(CONFIG_...)` at or after `k`. */
  function MakeVarFrom(s: string, k: nat): (r: Option<string>)
    decreases |s| - k
    ensures r.Some? ==> IsConfigName(r.value) && Contains(s, r.value)
  {
    if k + 2 > |s| then None
    else if s[k..k + 2] == "$(" && NameAt(s, k + 2).Some? && NameAt(s, k + 2).value < |s| && s[NameAt(s, k + 2).value] == ')' then
      ContainsAt(s, s[k + 2..NameAt(s, k + 2).value], k + 2);
      Some(s[k + 2..NameAt(s, k + 2).value])
    else MakeVarFrom(s, k + 1)
  }

  /** `re.search(r'\$\((CONFIG_[A-Z0-9_]+)\)', line)`, its group. */
  function MakeVar(line: string): (r: Option<string>)
    ensures r.Some? ==> IsConfigName(r.value) && Contains(line, r.value)
  {
    MakeVarFrom(line, 0)
  }

  /** A line with no `CONFIG_` in it names no make variable. */
  lemma {:induction false} MakeVarAbsent(s: string, k: nat)
    requires !Contains(s, Prefix)
    ensures MakeVarFrom(s, k) == None
    decreases |s| - k
  {
    if k + 2 <= |s| {
      if NameAt(s, k + 2).Some? {
        ContainsAt(s, Prefix, k + 2);
      }
      MakeVarAbsent(s, k + 1);
    }
  }

  /** No match starts where there is no `$`. */
  lemma {:induction false} MakeVarSkip(s: string, k: nat, j: nat)
    requires k <= j && forall i :: k <= i < j && i < |s| ==> s[i] != '$'
    ensures MakeVarFrom(s, k) == MakeVarFrom(s, j)
    decreases j - k
  {
    if k < j {
      if k + 2 <= |s| {
        assert s[k..k + 2][0] == s[k];
        MakeVarSkip(s, k + 1, j);
      }
    }
  }

  /** `$(CONFIG_X)` at `k` is the match found from `k`. */
  lemma MakeVarAt(s: string, k: nat, name: string)
    requires IsConfigName(name) && k + |name| + 3 <= |s|
    requires s[k..k + 2] == "$(" && s[k + 2..k + 2 + |name|] == name && s[k + 2 + |name|] == ')'
    ensures MakeVarFrom(s, k) == Some(name)
  {
    var n := k + 2 + |name|;
    assert forall i :: k + 2 <= i < n ==> s[i] == name[i - k - 2];
    NameEndAt(s, k + 2 + |Prefix|, n);
    assert s[k + 2..k + 2 + |Prefix|] == name[..|Prefix|];
    assert NameAt(s, k + 2) == Some(n);
  }

  // ---------------------------------------------------------------------
  // `defined\s*\(\s*(CONFIG_[A-Z0-9_]+)\s*\)`

  /** `\s*` from `i`: the end of the run of whitespace. */
  function SpaceEnd(s: string, i: nat): (r: nat)
    requires i <= |s|
    decreases |s| - i
    ensures i <= r <= |s|
  {
    if i < |s| && IsSpace(s[i]) then SpaceEnd(s, i + 1) else i
  }

  /** `defined\s*\(\s*` at `k`: where the symbol would start. */
  function DefinedOpen(s: string, k: nat): (r: Option<nat>)
    ensures r.Some? ==> OccursAt(s, "defined", k) && k + 8 <= r.value <= |s|
  {
    if !OccursAt(s, "defined", k) then None
    else
      var a := SpaceEnd(s, k + 7);
      if a == |s| || s[a] != '(' then None else Some(SpaceEnd(s, a + 1))
  }

  /** `\s*\)` at `e`: the end of the match. */
  function DefinedClose(s: string, e: nat): (r: Option<nat>)
    requires e <= |s|
    ensures r.Some? ==> e < |s| && e < r.value <= |s| && s[r.value - 1] == ')'
  {
    var c := SpaceEnd(s, e);
    if c == |s| || s[c] != ')' then None else Some(c + 1)
  }

  /** The pattern matched at `k`: the symbol and the end of the match. */
  function DefinedAt(s: string, k: nat): (r: Option<(string, nat)>)
    ensures r.Some? ==> IsConfigName(r.value.0) && k < r.value.1 <= |s|
  {
    match DefinedOpen(s, k)
    case None => None
    case Some(b) =>
      match NameAt(s, b)
      case None => None
      case Some(e) =>
        match DefinedClose(s, e)
        case None => None
        case Some(c) => Some((s[b..e], c))
  }

  /** `re.findall` of the pattern from `k` on: after a match the scan goes
      on where the match ends. */
  function DefinedNames(s: string, k: nat): (r: set<string>)
    decreases |s| - k
    ensures forall n :: n in r ==> IsConfigName(n)
  {
    if k >= |s| then {}
    else match DefinedAt(s, k)
      case Some((n, e)) => {n} + DefinedNames(s, e)
      case None => DefinedNames(s, k + 1)
  }

  /** `re.sub` of the pattern by `''` from `k` on: the text with every
      match cut out. */
  function RemoveDefined(s: string, k: nat): (r: string)
    decreases |s| - k
  {
    if k >= |s| then []
    else match DefinedAt(s, k)
      case Some((_, e)) => RemoveDefined(s, e)
      case None => [s[k]] + RemoveDefined(s, k + 1)
  }

  /** The scan of `re.findall` starting at `j` comes to `k`: no match it
      takes on the way runs over `k`. */
  ghost predicate DefinedVisits(s: string, j: nat, k: nat)
    decreases k - j
  {
    j == k || (j < k && j < |s| &&
      match DefinedAt(s, j)
      case Some((_, e)) => e <= k && DefinedVisits(s, e, k)
      case None => DefinedVisits(s, j + 1, k))
  }

  /** Every name found is the symbol of a match at a position of the
      text. */
  lemma {:induction false} DefinedNamesSound(s: string, k: nat, n: string)
    requires n in DefinedNames(s, k)
    ensures exists j :: k <= j < |s| && DefinedAt(s, j).Some? && DefinedAt(s, j).value.0 == n
    decreases |s| - k
  {
    match DefinedAt(s, k)
    case Some((m, e)) =>
      if m != n {
        DefinedNamesSound(s, e, n);
      }
    case None => DefinedNamesSound(s, k + 1, n);
  }

  /** What the scan finds from a position it comes to, it finds from the
      start. */
  lemma {:induction false} DefinedVisitedIncluded(s: string, j: nat, k: nat)
    requires DefinedVisits(s, j, k)
    ensures DefinedNames(s, k) <= DefinedNames(s, j)
    decreases k - j
  {
    if j != k {
      match DefinedAt(s, j)
      case Some((_, e)) => DefinedVisitedIncluded(s, e, k);
      case None => DefinedVisitedIncluded(s, j + 1, k);
    }
  }

  /** A match at a position the scan comes to is found. */
  lemma DefinedFound(s: string, k: nat)
    requires DefinedVisits(s, 0, k) && DefinedAt(s, k).Some?
    ensures DefinedAt(s, k).value.0 in DefinedNames(s, 0)
  {
    DefinedVisitedIncluded(s, 0, k);
  }

  /** Where the pattern matches nowhere, the scan moves on one character
      at a time: it finds nothing there, cuts nothing out and comes to the
      end of that stretch. */
  lemma {:induction false} DefinedSkip(s: string, j: nat, k: nat)
    requires j <= k <= |s|
    requires forall i :: j <= i < k ==> DefinedAt(s, i).None?
    ensures DefinedNames(s, j) == DefinedNames(s, k)
    decreases k - j
  {
    if j < k {
      DefinedSkip(s, j + 1, k);
    }
  }

  lemma {:induction false} RemoveDefinedSkip(s: string, j: nat, k: nat)
    requires j <= k <= |s|
    requires forall i :: j <= i < k ==> DefinedAt(s, i).None?
    ensures RemoveDefined(s, j) == s[j..k] + RemoveDefined(s, k)
    decreases k - j
  {
    if j < k {
      RemoveDefinedSkip(s, j + 1, k);
      RemoveDefinedKeeps(s, j);
      ConsSlice(s, j, k, RemoveDefined(s, k));
    }
  }

  /** A stretch of text and what follows it, one character at a time. */
  lemma ConsSlice(s: string, j: nat, k: nat, r: string)
    requires j < k <= |s|
    ensures s[j..k] + r == [s[j]] + (s[j + 1..k] + r)
  {
    assert s[j..k] == [s[j]] + s[j + 1..k];
  }

  lemma RemoveDefinedKeeps(s: string, j: nat)
    requires j < |s| && DefinedAt(s, j).None?
    ensures RemoveDefined(s, j) == [s[j]] + RemoveDefined(s, j + 1)
  {
  }

  lemma {:induction false} DefinedSkipVisits(s: string, j: nat, k: nat)
    requires j <= k <= |s|
    requires forall i :: j <= i < k ==> DefinedAt(s, i).None?
    ensures DefinedVisits(s, j, k)
    decreases k - j
  {
    if j < k {
      DefinedSkipVisits(s, j + 1, k);
    }
  }

  /** `defined(CONFIG_X)` at `k` is matched whole. */
  lemma DefinedAtHere(s: string, k: nat, n: string)
    requires IsConfigName(n) && DefinedText(s, k, n)
    ensures DefinedAt(s, k) == Some((n, k + |n| + 9))
  {
    var e := k + 8 + |n|;
    assert s[k + 8] == s[k + 8..e][0] == n[0];
    assert DefinedOpen(s, k) == Some(k + 8);
    assert DefinedClose(s, e) == Some(e + 1);
    NameAtSymbol(s, k + 8, n);
  }

  /** `defined(` followed by `n` and `)` stands at `k`, character by
      character. */
  predicate DefinedText(s: string, k: nat, n: string) {
    k + |n| + 9 <= |s| && OccursAt(s, "defined", k) && s[k + 7] == '('
    && s[k + 8..k + 8 + |n|] == n && s[k + 8 + |n|] == ')'
  }

  /** `defined(` + `n` + `)` written after any text and before any text
      stands where the first text ends. */
  lemma DefinedTextOf(pre: string, n: string, post: string)
    ensures DefinedText(pre + "defined(" + n + ")" + post, |pre|, n)
  {
    var s := pre + "defined(" + n + ")" + post;
    var k := |pre|;
    var d := "defined(" + n + ")";
    assert s == pre + d + post;
    assert s[k..k + |d|] == d;
    assert s[k..k + 7] == d[..7];
    assert s[k + 7] == d[7];
    assert s[k + 8..k + 8 + |n|] == d[8..8 + |n|];
    assert s[k + 8 + |n|] == d[8 + |n|];
  }

  /** A symbol at `b` followed by no further name character is read
      whole. */
  lemma NameAtSymbol(s: string, b: nat, n: string)
    requires IsConfigName(n) && b + |n| <= |s| && s[b..b + |n|] == n
    requires b + |n| == |s| || !IsNameChar(s[b + |n|])
    ensures NameAt(s, b) == Some(b + |n|)
  {
    assert forall i :: b <= i < b + |n| ==> s[i] == s[b..b + |n|][i - b];
    assert s[b..b + |Prefix|] == n[..|Prefix|];
    NameEndAt(s, b + |Prefix|, b + |n|);
  }

  /** What a `defined(...)` match is made of: the keyword at `k`, and
      after it a symbol at `b` that a further character follows. */
  lemma DefinedAtParts(s: string, k: nat) returns (b: nat)
    requires DefinedAt(s, k).Some?
    ensures OccursAt(s, "defined", k) && k + 8 <= b && OccursAt(s, Prefix, b)
    ensures NameAt(s, b).Some? && NameAt(s, b).value < |s|
  {
    b := DefinedOpen(s, k).value;
  }

  // ---------------------------------------------------------------------
  // `\b(CONFIG_[A-Z0-9_]+)\b`

  /** The pattern matched at `k`: a word boundary before the symbol and one
      after it. */
  function BareAt(s: string, k: nat): (r: Option<nat>)
    ensures r.Some? ==> k < r.value <= |s| && IsConfigName(s[k..r.value])
  {
    if k > 0 && k <= |s| && IsWordChar(s[k - 1]) then None
    else match NameAt(s, k)
      case None => None
      case Some(e) => if e < |s| && IsWordChar(s[e]) then None else Some(e)
  }

  /** `re.findall` of the pattern from `k` on: after a match the scan goes
      on where the match ends. */
  function BareNames(s: string, k: nat): (r: set<string>)
    decreases |s| - k
    ensures forall n :: n in r ==> IsConfigName(n)
  {
    if k >= |s| then {}
    else match BareAt(s, k)
      case Some(e) => {s[k..e]} + BareNames(s, e)
      case None => BareNames(s, k + 1)
  }

  /** The scan of `re.findall` starting at `j` comes to `k`. */
  ghost predicate BareVisits(s: string, j: nat, k: nat)
    decreases k - j
  {
    j == k || (j < k && j < |s| &&
      match BareAt(s, j)
      case Some(e) => e <= k && BareVisits(s, e, k)
      case None => BareVisits(s, j + 1, k))
  }

  /** Every bare name found is the symbol of a match at a position of the
      text. */
  lemma {:induction false} BareNamesSound(s: string, k: nat, n: string)
    requires n in BareNames(s, k)
    ensures exists j :: k <= j < |s| && BareAt(s, j).Some? && s[j..BareAt(s, j).value] == n
    ensures BareFoundAt(s, n)
    decreases |s| - k
  {
    match BareAt(s, k)
    case Some(e) =>
      if s[k..e] != n {
        BareNamesSound(s, e, n);
      }
    case None => BareNamesSound(s, k + 1, n);
  }

  lemma {:induction false} BareVisitedIncluded(s: string, j: nat, k: nat)
    requires BareVisits(s, j, k)
    ensures BareNames(s, k) <= BareNames(s, j)
    decreases k - j
  {
    if j != k {
      match BareAt(s, j)
      case Some(e) => BareVisitedIncluded(s, e, k);
      case None => BareVisitedIncluded(s, j + 1, k);
    }
  }

  /** A bare match at a position the scan comes to is found. */
  lemma BareFound(s: string, k: nat)
    requires BareVisits(s, 0, k) && BareAt(s, k).Some?
    ensures s[k..BareAt(s, k).value] in BareNames(s, 0)
  {
    BareVisitedIncluded(s, 0, k);
  }

  /** Where the bare pattern matches nowhere, the scan finds nothing and
      comes to the end of that stretch. */
  lemma {:induction false} BareSkip(s: string, j: nat, k: nat)
    requires j <= k <= |s|
    requires forall i :: j <= i < k ==> BareAt(s, i).None?
    ensures BareNames(s, j) == BareNames(s, k)
    ensures BareVisits(s, j, k)
    decreases k - j
  {
    if j < k {
      BareSkip(s, j + 1, k);
    }
  }

  /** `_extract_configs_from_condition`: the symbols inside `defined(...)`,
      and the word-bounded symbols of what is left once those are cut out. */
  function ExtractConfigs(condition: string): (r: set<string>)
    ensures forall n :: n in r ==> IsConfigName(n)
  {
    DefinedNames(condition, 0) + BareNames(RemoveDefined(condition, 0), 0)
  }

  /** Every match either scan comes to is among the names extracted. */
  lemma ExtractConfigsFinds(condition: string, k: nat, j: nat)
    ensures DefinedVisits(condition, 0, k) && DefinedAt(condition, k).Some? ==>
      DefinedAt(condition, k).value.0 in ExtractConfigs(condition)
    ensures var t := RemoveDefined(condition, 0);
      BareVisits(t, 0, j) && BareAt(t, j).Some? ==> t[j..BareAt(t, j).value] in ExtractConfigs(condition)
  {
    if DefinedVisits(condition, 0, k) && DefinedAt(condition, k).Some? {
      DefinedFound(condition, k);
    }
    var t := RemoveDefined(condition, 0);
    if BareVisits(t, 0, j) && BareAt(t, j).Some? {
      BareFound(t, j);
    }
  }

  /** Each name extracted comes from a match of one of the two scans. */
  lemma ExtractConfigsSound(condition: string, n: string)
    requires n in ExtractConfigs(condition)
    ensures (exists j :: 0 <= j < |condition| && DefinedAt(condition, j).Some? && DefinedAt(condition, j).value.0 == n)
      || BareFoundAt(RemoveDefined(condition, 0), n)
  {
    var t := RemoveDefined(condition, 0);
    if n in DefinedNames(condition, 0) {
      DefinedNamesSound(condition, 0, n);
    } else {
      BareNamesSound(t, 0, n);
    }
  }

  /** `n` is the symbol of a bare match at a position of `t`. */
  ghost predicate BareFoundAt(t: string, n: string) {
    exists j :: 0 <= j < |t| && BareAt(t, j).Some? && t[j..BareAt(t, j).value] == n
  }

  /** A condition that does not mention `CONFIG_` yields no symbol. */
  lemma ExtractConfigsAbsent(condition: string)
    requires !Contains(condition, Prefix)
    ensures ExtractConfigs(condition) == {}
  {
    DefinedAbsent(condition, 0);
    RemoveDefinedAbsent(condition, 0);
    BareAbsent(condition, 0);
  }

  lemma {:induction false} DefinedAbsent(s: string, k: nat)
    requires !Contains(s, Prefix)
    ensures DefinedNames(s, k) == {}
    decreases |s| - k
  {
    if k < |s| {
      match DefinedAt(s, k)
      case Some((n, e)) =>
        ContainsAt(s, Prefix, DefinedOpen(s, k).value);
      case None => DefinedAbsent(s, k + 1);
    }
  }

  lemma {:induction false} RemoveDefinedAbsent(s: string, k: nat)
    requires !Contains(s, Prefix) && k <= |s|
    ensures RemoveDefined(s, k) == s[k..]
    decreases |s| - k
  {
    if k < |s| {
      match DefinedAt(s, k)
      case Some((n, e)) =>
        ContainsAt(s, Prefix, DefinedOpen(s, k).value);
      case None =>
        RemoveDefinedAbsent(s, k + 1);
        assert s[k..] == [s[k]] + s[k + 1..];
    }
  }

  lemma {:induction false} BareAbsent(s: string, k: nat)
    requires !Contains(s, Prefix)
    ensures BareNames(s, k) == {}
    decreases |s| - k
  {
    if k < |s| {
      if BareAt(s, k).Some? {
        ContainsAt(s, Prefix, k);
      }
      BareAbsent(s, k + 1);
    }
  }

  /** `defined(CONFIG_X)` on its own yields exactly `CONFIG_X`. */
  lemma DefinedAlone(n: string)
    requires IsConfigName(n)
    ensures ExtractConfigs("defined(" + n + ")") == {n}
  {
    DefinedTextOf([], n, []);
    assert [] + "defined(" + n + ")" + [] == "defined(" + n + ")";
    AloneMatches("defined(" + n + ")", n);
  }

  lemma AloneMatches(s: string, n: string)
    requires IsConfigName(n) && DefinedText(s, 0, n) && |s| == |n| + 9
    ensures ExtractConfigs(s) == {n}
  {
    DefinedAtHere(s, 0, n);
    MatchStep(s, 0, n, |s|);
  }

  /** `defined(CONFIG_A) && defined(CONFIG_B)`, or the two joined by any
      operator text without `CONFIG_` and without a `d`, yields exactly the
      two symbols. */
  lemma DefinedPair(a: string, op: string, b: string)
    requires IsConfigName(a) && IsConfigName(b)
    requires !Contains(op, Prefix) && forall i :: 0 <= i < |op| ==> op[i] != 'd'
    ensures ExtractConfigs("defined(" + a + ")" + op + "defined(" + b + ")") == {a, b}
  {
    PairFacts(a, op, b);
    PairMatches("defined(" + a + ")" + op + "defined(" + b + ")", a, op, b, |a| + 9);
  }

  /** The pieces of such a condition, and no `defined` spelt inside the
      operator. */
  lemma PairFacts(a: string, op: string, b: string)
    requires forall i :: 0 <= i < |op| ==> op[i] != 'd'
    ensures var s := "defined(" + a + ")" + op + "defined(" + b + ")";
      var m := |a| + 9;
      |s| == m + |op| + |b| + 9 && DefinedText(s, 0, a) && s[m..m + |op|] == op
      && DefinedText(s, m + |op|, b)
      && forall i :: m <= i < m + |op| ==> !OccursAt(s, "defined", i)
  {
    var d1 := "defined(" + a + ")";
    var d2 := "defined(" + b + ")";
    ThreeParts(d1, op, d2);
    assert "defined(" + a + ")" + op + "defined(" + b + ")" == d1 + op + d2;
    DefinedTextAt(d1 + op + d2, 0, a);
    DefinedTextAt(d1 + op + d2, |d1| + |op|, b);
  }

  /** The three pieces of a concatenation, and no `defined` starting in
      a middle piece without a `d`. */
  lemma ThreeParts(x: string, y: string, z: string)
    requires forall i :: 0 <= i < |y| ==> y[i] != 'd'
    ensures (x + y + z)[0..|x|] == x && (x + y + z)[|x|..|x| + |y|] == y
    ensures (x + y + z)[|x| + |y|..|x + y + z|] == z
    ensures forall i :: |x| <= i < |x| + |y| ==> !OccursAt(x + y + z, "defined", i)
  {
    var s := x + y + z;
    forall i | |x| <= i < |x| + |y|
      ensures !OccursAt(s, "defined", i)
    {
      assert s[i] == y[i - |x|];
      if i + 7 <= |s| {
        assert s[i..i + 7][0] == s[i];
      }
    }
  }

  /** `defined(` + `n` + `)` as a slice stands there character by
      character. */
  lemma DefinedTextAt(s: string, k: nat, n: string)
    requires k + |n| + 9 <= |s| && s[k..k + |n| + 9] == "defined(" + n + ")"
    ensures DefinedText(s, k, n)
  {
    var d := "defined(" + n + ")";
    var t := s[k..k + |n| + 9];
    assert s[k..k + 7] == t[..7] == d[..7] == "defined";
    assert s[k + 7] == t[7] == d[7];
    var d0 := "defined(" + n;
    assert d[..8 + |n|] == d0 && d0[8..] == n;
    assert d[8..8 + |n|] == d[..8 + |n|][8..];
    assert t == d;
    assert forall j :: 8 <= j < 8 + |n| ==> s[k + j] == t[j];
    assert s[k + 8..k + 8 + |n|] == t[8..8 + |n|];
    assert t[8..8 + |n|] == n;
    assert s[k + 8 + |n|] == t[8 + |n|] == d[8 + |n|];
  }

  lemma PairMatches(s: string, a: string, op: string, b: string, m: nat)
    requires IsConfigName(a) && IsConfigName(b) && !Contains(op, Prefix)
    requires m == |a| + 9 && |s| == m + |op| + |b| + 9
    requires DefinedText(s, 0, a) && s[m..m + |op|] == op && DefinedText(s, m + |op|, b)
    requires forall i :: m <= i < m + |op| ==> !OccursAt(s, "defined", i)
    ensures ExtractConfigs(s) == {a, b}
  {
    PairAt(s, a, b, m + |op|);
    PairRest(s, a, op, b, m);
  }

  lemma PairRest(s: string, a: string, op: string, b: string, m: nat)
    requires m + |op| <= |s| && !Contains(op, Prefix) && s[m..m + |op|] == op
    requires DefinedAt(s, 0) == Some((a, m)) && DefinedAt(s, m + |op|) == Some((b, |s|))
    requires forall i :: m <= i < m + |op| ==> !OccursAt(s, "defined", i)
    ensures ExtractConfigs(s) == {a, b}
  {
    PairScan(s, a, b, m, m + |op|);
    BareAbsent(op, 0);
  }

  lemma PairAt(s: string, a: string, b: string, m': nat)
    requires IsConfigName(a) && IsConfigName(b) && |a| + 9 <= m' && |s| == m' + |b| + 9
    requires DefinedText(s, 0, a) && DefinedText(s, m', b)
    ensures DefinedAt(s, 0) == Some((a, |a| + 9)) && DefinedAt(s, m') == Some((b, |s|))
  {
    DefinedAtHere(s, 0, a);
    DefinedAtHere(s, m', b);
  }

  lemma PairScan(s: string, a: string, b: string, m: nat, m': nat)
    requires m <= m' <= |s|
    requires DefinedAt(s, 0) == Some((a, m)) && DefinedAt(s, m') == Some((b, |s|))
    requires forall i :: m <= i < m' ==> !OccursAt(s, "defined", i)
    ensures DefinedNames(s, 0) == {a, b} && RemoveDefined(s, 0) == s[m..m']
  {
    NoKeywordNoMatch(s, m, m');
    TwoMatches(s, m, m', a, b);
  }

  lemma NoKeywordNoMatch(s: string, j: nat, k: nat)
    requires forall i :: j <= i < k ==> !OccursAt(s, "defined", i)
    ensures forall i :: j <= i < k ==> DefinedAt(s, i).None?
  {
    forall i | j <= i < k
      ensures DefinedAt(s, i).None?
    {
      DefinedNoKeyword(s, i);
    }
  }

  /** A match at the start, a stretch without one and a match that ends
      the text: two names, and only the stretch is left once they are cut
      out. */
  lemma TwoMatches(s: string, m: nat, m': nat, a: string, b: string)
    requires m <= m' <= |s|
    requires DefinedAt(s, 0) == Some((a, m))
    requires forall i :: m <= i < m' ==> DefinedAt(s, i).None?
    requires DefinedAt(s, m') == Some((b, |s|))
    ensures DefinedNames(s, 0) == {a, b}
    ensures RemoveDefined(s, 0) == s[m..m']
  {
    DefinedSkip(s, m, m');
    RemoveDefinedSkip(s, m, m');
    MatchStep(s, 0, a, m);
    MatchStep(s, m', b, |s|);
    AppendNil(s[m..m'], RemoveDefined(s, |s|));
  }

  /** A match at `k` contributes its symbol and is cut out whole. */
  lemma MatchStep(s: string, k: nat, n: string, e: nat)
    requires DefinedAt(s, k) == Some((n, e))
    ensures DefinedNames(s, k) == {n} + DefinedNames(s, e)
    ensures RemoveDefined(s, k) == RemoveDefined(s, e)
    ensures DefinedNames(s, |s|) == {} && RemoveDefined(s, |s|) == []
  {
  }

  lemma AppendNil(x: string, r: string)
    requires r == []
    ensures x + r == x
  {
  }

  /** A text without `w` followed by one starting with a character that
      only the first character of `w` can be holds no `w` starting inside
      the first text. */
  lemma NotAcross(p: string, rest: string, w: string, b: nat)
    requires b < |p| && !Contains(p, w)
    requires rest != [] && forall i :: 1 <= i < |w| ==> w[i] != rest[0]
    ensures !OccursAt(p + rest, w, b)
  {
    var s := p + rest;
    if b + |w| <= |p| {
      if OccursAt(s, w, b) {
        assert p[b..b + |w|] == s[b..b + |w|];
        ContainsAt(p, w, b);
      }
    } else if b + |w| <= |s| {
      assert s[b..b + |w|][|p| - b] == rest[0];
    }
  }

  /** No `w` starts inside a text that holds none. */
  lemma NotInSuffix(x: string, t: string, w: string, b: nat)
    requires |x| <= b && !Contains(t, w)
    ensures !OccursAt(x + t, w, b)
  {
    if OccursAt(x + t, w, b) {
      assert t[b - |x|..b - |x| + |w|] == (x + t)[b..b + |w|];
      ContainsAt(t, w, b - |x|);
    }
  }

  /** A text none of whose characters starts `w` does not hold `w`. */
  lemma NoFirstChar(s: string, w: string)
    requires w != [] && forall i :: 0 <= i < |s| ==> s[i] != w[0]
    ensures !Contains(s, w)
  {
    forall k: int
      ensures !OccursAt(s, w, k)
    {
      if 0 <= k && k + |w| <= |s| {
        assert s[k..k + |w|][0] == s[k];
      }
    }
    ContainsIff(s, w);
  }

  /** No `defined(...)` match starts where `defined` is not spelt. */
  lemma DefinedNoKeyword(s: string, k: nat)
    requires !OccursAt(s, "defined", k)
    ensures DefinedAt(s, k).None?
  {
  }

  /** No bare match starts where `CONFIG_` is not spelt. */
  lemma BareNoPrefix(s: string, k: nat)
    requires !OccursAt(s, Prefix, k)
    ensures BareAt(s, k).None?
  {
  }

  /** A `defined(...)` match needs a `CONFIG_` after its start. */
  lemma DefinedNoSymbol(s: string, k: nat)
    requires forall b :: k <= b ==> !OccursAt(s, Prefix, b)
    ensures DefinedAt(s, k).None?
  {
    if DefinedAt(s, k).Some? {
      var b := DefinedAtParts(s, k);
    }
  }

  /** A `defined(...)` match needs a character after its symbol that is
      not a name character, so none closes when every `CONFIG_` lies in a
      run of name characters reaching the end of the text. */
  lemma DefinedNoClose(s: string, m: nat, k: nat)
    requires forall b :: 0 <= b < m ==> !OccursAt(s, Prefix, b)
    requires forall i :: m <= i < |s| ==> IsNameChar(s[i])
    ensures DefinedAt(s, k).None?
  {
    if DefinedAt(s, k).Some? {
      var b := DefinedAtParts(s, k);
    }
  }

  /** A text in which `defined(...)` matches nowhere is cut nothing out
      of and yields only its bare symbols. */
  lemma NoDefinedMatch(s: string)
    requires forall k :: 0 <= k < |s| ==> DefinedAt(s, k).None?
    ensures ExtractConfigs(s) == BareNames(s, 0)
  {
    DefinedSkip(s, 0, |s|);
    RemoveDefinedSkip(s, 0, |s|);
    WholeSlice(s, RemoveDefined(s, |s|));
  }

  lemma WholeSlice(s: string, r: string)
    requires r == []
    ensures s[0..|s|] + r == s
  {
  }

  /** A text with exactly one bare match yields its symbol only. */
  lemma OneBare(s: string, j: nat, e: nat)
    requires j <= e <= |s|
    requires forall i :: 0 <= i < j ==> BareAt(s, i).None?
    requires BareAt(s, j) == Some(e)
    requires forall i :: e <= i < |s| ==> BareAt(s, i).None?
    ensures BareNames(s, 0) == {s[j..e]}
  {
    BareSkip(s, 0, j);
    BareSkip(s, e, |s|);
    assert BareNames(s, |s|) == {};
  }

  /** A directive such as `#ifdef CONFIG_X` or `#if CONFIG_X`, or any text
      without `CONFIG_` ending in a non-word character followed by a symbol
      that ends the condition, yields exactly that symbol. */
  lemma BareAfterPrefix(p: string, n: string)
    requires IsConfigName(n)
    requires !Contains(p, Prefix)
    requires p == [] || !IsWordChar(p[|p| - 1])
    ensures ExtractConfigs(p + n) == {n}
  {
    var s := p + n;
    PrefixThenName(p, n);
    BareBetweenAt(p, n, []);
    assert s + [] == s;
    SymbolAfter(s, |p|, |s|);
  }

  /** The characters of a text without `CONFIG_` followed by a symbol: no
      `CONFIG_` starts in the text, and name characters follow it to the
      end. */
  lemma PrefixThenName(p: string, n: string)
    requires IsConfigName(n) && !Contains(p, Prefix)
    ensures forall b :: 0 <= b < |p| ==> !OccursAt(p + n, Prefix, b)
    ensures forall i :: |p| <= i < |p + n| ==> IsNameChar((p + n)[i])
  {
    forall b | 0 <= b < |p|
      ensures !OccursAt(p + n, Prefix, b)
    {
      NotAcross(p, n, Prefix, b);
    }
    forall i | |p| <= i < |p + n|
      ensures IsNameChar((p + n)[i])
    {
      assert (p + n)[i] == n[i - |p|];
    }
  }

  /** At the end of a symbol that ends the text, whatever stands before
      it: no `CONFIG_` before `m`, a bare match from `m` to the end. */
  lemma SymbolAfter(s: string, m: nat, e: nat)
    requires m <= e == |s|
    requires forall b :: 0 <= b < m ==> !OccursAt(s, Prefix, b)
    requires forall i :: m <= i < |s| ==> IsNameChar(s[i])
    requires BareAt(s, m) == Some(e)
    ensures ExtractConfigs(s) == {s[m..e]}
  {
    forall k | 0 <= k < |s|
      ensures DefinedAt(s, k).None?
    {
      DefinedNoClose(s, m, k);
    }
    NoDefinedMatch(s);
    forall k | 0 <= k < m
      ensures BareAt(s, k).None?
    {
      BareNoPrefix(s, k);
    }
    OneBare(s, m, e);
  }

  /** A symbol between a prefix and a suffix that hold no `CONFIG_`, with a
      non-word character on either side, yields exactly that symbol when
      the prefix does not spell `defined`: `CONFIG_FOO=y`, `#if CONFIG_X`,
      `IS_ENABLED(CONFIG_X)`, `!CONFIG_X || ...`. */
  lemma BareBetween(p: string, n: string, t: string)
    requires IsConfigName(n)
    requires !Contains(p, Prefix) && !Contains(p, "defined") && !Contains(t, Prefix)
    requires p == [] || !IsWordChar(p[|p| - 1])
    requires t == [] || !IsWordChar(t[0])
    ensures ExtractConfigs(p + n + t) == {n}
  {
    AroundFacts(p, n, t);
    BareBetweenAt(p, n, t);
    SymbolBetween(p + n + t, |p|, |p| + |n|);
  }

  /** The characters around the symbol under the conditions of
      `BareBetween`: no `CONFIG_` starts before it or after it, and no
      `defined` starts before its end (the symbol holds no small letter,
      and `defined` cannot run over its `C`). */
  lemma AroundFacts(p: string, n: string, t: string)
    requires IsConfigName(n)
    requires !Contains(p, Prefix) && !Contains(p, "defined") && !Contains(t, Prefix)
    ensures forall b :: 0 <= b < |p| ==> !OccursAt(p + n + t, Prefix, b)
    ensures forall b :: |p| + |n| <= b ==> !OccursAt(p + n + t, Prefix, b)
    ensures forall k :: 0 <= k < |p| + |n| ==> !OccursAt(p + n + t, "defined", k)
  {
    var s := p + n + t;
    assert s == p + (n + t);
    assert (n + t)[0] == n[0] == Prefix[0];
    forall b | 0 <= b < |p|
      ensures !OccursAt(s, Prefix, b)
    {
      NotAcross(p, n + t, Prefix, b);
    }
    forall k | 0 <= k < |p| + |n|
      ensures !OccursAt(s, "defined", k)
    {
      if k < |p| {
        NotAcross(p, n + t, "defined", k);
      } else if k + 7 <= |s| {
        assert s[k..k + 7][0] == s[k] == n[k - |p|];
      }
    }
    assert s == (p + n) + t;
    forall b | |p| + |n| <= b
      ensures !OccursAt(s, Prefix, b)
    {
      NotInSuffix(p + n, t, Prefix, b);
    }
  }

  /** A bare match from `m` to `e`, no `CONFIG_` outside it and no
      `defined` before its end: its symbol is all that is extracted. */
  lemma SymbolBetween(s: string, m: nat, e: nat)
    requires m <= e <= |s|
    requires forall b :: 0 <= b < m ==> !OccursAt(s, Prefix, b)
    requires forall b :: e <= b ==> !OccursAt(s, Prefix, b)
    requires forall k :: 0 <= k < e ==> !OccursAt(s, "defined", k)
    requires BareAt(s, m) == Some(e)
    ensures ExtractConfigs(s) == {s[m..e]}
  {
    forall k | 0 <= k < |s|
      ensures DefinedAt(s, k).None?
    {
      if k < e {
        DefinedNoKeyword(s, k);
      } else {
        DefinedNoSymbol(s, k);
      }
    }
    NoDefinedMatch(s);
    forall k | 0 <= k < |s| && (k < m || e <= k)
      ensures BareAt(s, k).None?
    {
      BareNoPrefix(s, k);
    }
    OneBare(s, m, e);
  }

  /** The bare pattern matches the symbol between the two texts. */
  lemma BareBetweenAt(p: string, n: string, t: string)
    requires IsConfigName(n)
    requires p == [] || !IsWordChar(p[|p| - 1])
    requires t == [] || !IsWordChar(t[0])
    ensures BareAt(p + n + t, |p|) == Some(|p| + |n|)
    ensures (p + n + t)[|p|..|p| + |n|] == n
  {
    var s := p + n + t;
    var e := |p| + |n|;
    assert s[|p|..e] == n;
    if e < |s| {
      assert s[e] == t[0];
    }
    if |p| > 0 {
      assert s[|p| - 1] == p[|p| - 1];
    }
    NameAtSymbol(s, |p|, n);
  }

  /** `CONFIG_FOO=y`, a form the source's comment names, yields exactly
      `CONFIG_FOO`. */
  lemma ConfigEqualsValue(n: string, v: string)
    requires IsConfigName(n) && !Contains(v, Prefix)
    ensures ExtractConfigs(n + "=" + v) == {n}
  {
    NoFirstChar([], Prefix);
    NoFirstChar([], "defined");
    NotContainedAfter(v, Prefix);
    assert n + "=" + v == [] + n + ("=" + v);
    BareBetween([], n, "=" + v);
  }

  /** Putting a character that no `w` starts with in front of a text
      without `w` keeps it without `w`. */
  lemma NotContainedAfter(v: string, w: string)
    requires w != [] && w[0] != '=' && !Contains(v, w)
    ensures !Contains("=" + v, w)
  {
    forall k: int
      ensures !OccursAt("=" + v, w, k)
    {
      if k > 0 {
        NotInSuffix("=", v, w, k);
      } else if k == 0 && |w| <= |"=" + v| {
        assert ("=" + v)[..|w|][0] == '=';
      }
    }
    ContainsIff("=" + v, w);
  }

  /** `IS_ENABLED(CONFIG_X)` yields exactly `CONFIG_X`. */
  lemma IsEnabled(n: string)
    requires IsConfigName(n)
    ensures ExtractConfigs("IS_ENABLED(" + n + ")") == {n}
  {
    NoFirstChar("IS_ENABLED(", Prefix);
    NoFirstChar("IS_ENABLED(", "defined");
    NoFirstChar(")", Prefix);
    BareBetween("IS_ENABLED(", n, ")");
  }
}
