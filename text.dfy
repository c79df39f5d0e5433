/** The Python string built-ins the backporter relies on, written out:
    `startswith`, `in`, `find`, `strip`, `re.sub(r"\s+", "")`, `replace`,
    `split`, `splitlines`, `"\n".join`, `int()` and `str()` of integers. */
module Text {
  import opened Results

  /** `s.startswith(p)`. */
  predicate StartsWith(s: string, p: string) {
    |p| <= |s| && s[..|p|] == p
  }

  /** `s.endswith(p)`. */
  predicate EndsWith(s: string, p: string) {
    |p| <= |s| && s[|s| - |p|..] == p
  }

  /** `p` occurs in `s` at position `k`. */
  predicate OccursAt(s: string, p: string, k: int) {
    0 <= k && k + |p| <= |s| && s[k..k + |p|] == p
  }

  /** `s.find(p, from)`: the first occurrence at or after `from`, -1 if none. */
  function Find(s: string, p: string, from: nat): (r: int)
    decreases |s| - from
    ensures r == -1 || (from <= r && OccursAt(s, p, r))
    ensures r == -1 ==> forall k :: from <= k ==> !OccursAt(s, p, k)
    ensures r != -1 ==> forall k :: from <= k < r ==> !OccursAt(s, p, k)
  {
    if from + |p| > |s| then -1
    else if s[from..from + |p|] == p then from
    else Find(s, p, from + 1)
  }

  /** `p in s`. */
  predicate Contains(s: string, p: string) {
    Find(s, p, 0) >= 0
  }

  lemma ContainsIff(s: string, p: string)
    ensures Contains(s, p) <==> exists k :: OccursAt(s, p, k)
  {
    if Contains(s, p) {
      assert OccursAt(s, p, Find(s, p, 0));
    }
  }

  lemma ContainsAt(s: string, p: string, k: int)
    requires OccursAt(s, p, k)
    ensures Contains(s, p)
  {
  }

  lemma PrefixContained(s: string, p: string)
    requires StartsWith(s, p)
    ensures Contains(s, p)
  {
    assert OccursAt(s, p, 0);
  }

  lemma ContainedInConcat(a: string, s: string, b: string, p: string)
    requires Contains(s, p)
    ensures Contains(a + s + b, p)
  {
    var k := Find(s, p, 0);
    assert (a + s + b)[|a| + k..|a| + k + |p|] == s[k..k + |p|];
    assert OccursAt(a + s + b, p, |a| + k);
  }

  /** Characters for which Python's `str.isspace()` holds; `\s` matches the same set. */
  predicate IsSpace(c: char) {
    c == ' ' || ('\t' <= c <= '\r') || ('\U{1C}' <= c <= '\U{1F}')
    || c == '\U{85}' || c == '\U{A0}' || c == '\U{1680}'
    || ('\U{2000}' <= c <= '\U{200A}') || c == '\U{2028}' || c == '\U{2029}'
    || c == '\U{202F}' || c == '\U{205F}' || c == '\U{3000}'
  }

  /** A character in the set stripped by `strip(chars)`: whitespace when `chars` is None. */
  predicate Strippable(c: char, chars: Option<set<char>>) {
    match chars
    case None => IsSpace(c)
    case Some(cs) => c in cs
  }

  /** The index of the first character at or after `i` that is not strippable, or `|s|`. */
  function SkipForward(s: string, i: nat, chars: Option<set<char>>): (r: nat)
    requires i <= |s|
    decreases |s| - i
    ensures i <= r <= |s|
    ensures forall k :: i <= k < r ==> Strippable(s[k], chars)
    ensures r < |s| ==> !Strippable(s[r], chars)
  {
    if i < |s| && Strippable(s[i], chars) then SkipForward(s, i + 1, chars) else i
  }

  /** The index just past the last character before `j` that is not strippable, but not below `lo`. */
  function SkipBackward(s: string, lo: nat, j: nat, chars: Option<set<char>>): (r: nat)
    requires lo <= j <= |s|
    decreases j
    ensures lo <= r <= j
    ensures forall k :: r <= k < j ==> Strippable(s[k], chars)
    ensures r > lo ==> !Strippable(s[r - 1], chars)
  {
    if j > lo && Strippable(s[j - 1], chars) then SkipBackward(s, lo, j - 1, chars) else j
  }

  /** `s.rstrip(chars)`. */
  function RStrip(s: string, chars: Option<set<char>>): (r: string)
    ensures |r| <= |s| && r == s[..|r|]
  {
    s[..SkipBackward(s, 0, |s|, chars)]
  }

  /** `r` is the piece of `s` starting at `d`, and all of `s` around it is whitespace. */
  predicate StrippedAt(s: string, r: string, d: int) {
    0 <= d && d + |r| <= |s| && r == s[d..d + |r|]
    && (forall k :: 0 <= k < d ==> IsSpace(s[k]))
    && (forall k :: d + |r| <= k < |s| ==> IsSpace(s[k]))
  }

  /** `s.strip(chars)`: both ends at once. */
  function StripWith(s: string, chars: Option<set<char>>): (r: string)
    ensures |r| <= |s|
  {
    var a := SkipForward(s, 0, chars);
    s[a..SkipBackward(s, a, |s|, chars)]
  }

  /** `s.strip()`. */
  function Strip(s: string): (r: string)
    ensures |r| <= |s|
  {
    StripWith(s, None)
  }

  /** `strip()` keeps a contiguous piece of `s` whose two ends are not
      whitespace, and everything cut off around it is whitespace. */
  lemma StripSpec(s: string)
    ensures exists d :: StrippedAt(s, Strip(s), d)
    ensures var r := Strip(s); r == [] || (!IsSpace(r[0]) && !IsSpace(r[|r| - 1]))
  {
    var a := SkipForward(s, 0, None);
    assert StrippedAt(s, Strip(s), a);
  }

  /** A string that neither starts nor ends with whitespace is its own
      `strip()`. */
  lemma StripUnchanged(s: string)
    requires s != [] && !IsSpace(s[0]) && !IsSpace(s[|s| - 1])
    ensures Strip(s) == s
  {
    assert SkipForward(s, 0, None) == 0;
    assert SkipBackward(s, 0, |s|, None) == |s|;
  }

  /** `s.strip(c)` for one character. */
  function StripChar(s: string, c: char): (r: string)
    ensures |r| <= |s|
  {
    StripWith(s, Some({c}))
  }

  /** `re.sub(r"\s+", "", s)`: `s` with every whitespace character deleted. */
  function RemoveSpaces(s: string): (r: string)
    ensures |r| <= |s|
    ensures forall k :: 0 <= k < |r| ==> !IsSpace(r[k])
  {
    if s == [] then []
    else if IsSpace(s[0]) then RemoveSpaces(s[1..])
    else [s[0]] + RemoveSpaces(s[1..])
  }

  lemma {:induction false} RemoveSpacesConcat(a: string, b: string)
    ensures RemoveSpaces(a + b) == RemoveSpaces(a) + RemoveSpaces(b)
  {
    if a == [] {
      assert a + b == b;
    } else {
      assert (a + b)[0] == a[0];
      assert (a + b)[1..] == a[1..] + b;
      RemoveSpacesConcat(a[1..], b);
      if !IsSpace(a[0]) {
        assert [a[0]] + RemoveSpaces(a[1..]) + RemoveSpaces(b) == [a[0]] + (RemoveSpaces(a[1..]) + RemoveSpaces(b));
      }
    }
  }

  lemma {:induction false} RemoveSpacesOfSpaceFree(s: string)
    requires forall k :: 0 <= k < |s| ==> !IsSpace(s[k])
    ensures RemoveSpaces(s) == s
  {
    if s != [] {
      RemoveSpacesOfSpaceFree(s[1..]);
    }
  }

  lemma {:induction false} RemoveSpacesOfAllSpace(s: string)
    requires forall k :: 0 <= k < |s| ==> IsSpace(s[k])
    ensures RemoveSpaces(s) == []
  {
    if s != [] {
      RemoveSpacesOfAllSpace(s[1..]);
    }
  }

  /** Stripping line feeds off the ends never changes what is left once all
      whitespace is deleted. */
  lemma RemoveSpacesOfStripNewline(s: string)
    ensures RemoveSpaces(StripChar(s, '\n')) == RemoveSpaces(s)
  {
    var a := SkipForward(s, 0, Some({'\n'}));
    var b := SkipBackward(s, a, |s|, Some({'\n'}));
    var pre, mid, post := s[..a], s[a..b], s[b..];
    assert StripChar(s, '\n') == mid;
    assert s == pre + mid + post;
    assert forall k :: 0 <= k < |pre| ==> pre[k] == s[k];
    assert forall k :: 0 <= k < |post| ==> post[k] == s[b + k];
    RemoveSpacesOfAllSpace(pre);
    RemoveSpacesOfAllSpace(post);
    RemoveSpacesConcat(pre + mid, post);
    RemoveSpacesConcat(pre, mid);
  }

  /** `s.replace(old, new)`, all occurrences, scanning left to right;
      an empty `old` puts `new` before every character and at the end. */
  function Replace(s: string, pat: string, rep: string): (r: string)
    decreases |s|, |pat|
  {
    if pat == [] then
      if s == [] then rep else rep + [s[0]] + Replace(s[1..], pat, rep)
    else if |s| < |pat| then s
    else if s[..|pat|] == pat then rep + Replace(s[|pat|..], pat, rep)
    else [s[0]] + Replace(s[1..], pat, rep)
  }

  lemma {:induction false} ReplaceAbsent(s: string, pat: string, rep: string)
    requires pat != [] && !Contains(s, pat)
    ensures Replace(s, pat, rep) == s
  {
    if |s| >= |pat| {
      assert !OccursAt(s, pat, 0);
      if s[1..] != [] || pat != [] {
        if Contains(s[1..], pat) {
          var k := Find(s[1..], pat, 0);
          assert s[1 + k..1 + k + |pat|] == s[1..][k..k + |pat|];
          assert OccursAt(s, pat, 1 + k);
        }
      }
      ReplaceAbsent(s[1..], pat, rep);
    }
  }

  lemma {:induction false} ReplaceRemovesPattern(s: string, pat: string)
    requires |pat| == 1
    ensures !Contains(Replace(s, pat, []), pat)
  {
    if |s| >= 1 {
      ReplaceRemovesPattern(s[1..], pat);
      var t := Replace(s[1..], pat, []);
      if s[..1] != pat {
        var r := [s[0]] + t;
        assert Replace(s, pat, []) == r;
        if Contains(r, pat) {
          var k := Find(r, pat, 0);
          assert k != 0;
          assert r[k..k + 1] == t[k - 1..k];
          ContainsAt(t, pat, k - 1);
          assert false;
        }
      } else {
        assert Replace(s, pat, []) == [] + t;
        assert [] + t == t;
      }
    }
  }

  /** `sep.join(xs)`. */
  function Join(xs: seq<string>, sep: string): (r: string)
    ensures |xs| == 1 ==> r == xs[0]
  {
    if |xs| == 0 then []
    else if |xs| == 1 then xs[0]
    else xs[0] + sep + Join(xs[1..], sep)
  }

  lemma {:induction false} JoinAppend(xs: seq<string>, x: string, sep: string)
    requires xs != []
    ensures Join(xs + [x], sep) == Join(xs, sep) + sep + x
  {
    if |xs| > 1 {
      assert (xs + [x])[1..] == xs[1..] + [x];
      JoinAppend(xs[1..], x, sep);
    }
  }

  lemma {:induction false} JoinConcat(xs: seq<string>, ys: seq<string>, sep: string)
    requires xs != [] && ys != []
    ensures Join(xs + ys, sep) == Join(xs, sep) + sep + Join(ys, sep)
  {
    if |xs| > 1 {
      assert (xs + ys)[1..] == xs[1..] + ys;
      JoinConcat(xs[1..], ys, sep);
    } else {
      assert (xs + ys)[1..] == ys;
    }
  }

  /** The index of the first `c` in `s`, or `|s|`. */
  function IndexOfChar(s: string, c: char): (r: nat)
    ensures r <= |s|
    ensures r < |s| ==> s[r] == c
    ensures forall k :: 0 <= k < r ==> s[k] != c
  {
    if s == [] then 0 else if s[0] == c then 0 else 1 + IndexOfChar(s[1..], c)
  }

  /** The first `c` is at `i` when `s[i]` is `c` and no earlier character is. */
  lemma IndexOfCharAt(s: string, c: char, i: nat)
    requires i < |s| && s[i] == c && forall k :: 0 <= k < i ==> s[k] != c
    ensures IndexOfChar(s, c) == i
  {
  }

  /** `s.split(c)` for a one-character separator: always at least one piece,
      no piece contains `c`, and joining with `c` gives `s` back. */
  function Split(s: string, c: char): (r: seq<string>)
    decreases |s|
    ensures |r| >= 1
    ensures forall k :: 0 <= k < |r| ==> c !in r[k]
    ensures Join(r, [c]) == s
  {
    var i := IndexOfChar(s, c);
    if i == |s| then [s]
    else
      var rest := Split(s[i + 1..], c);
      assert ([s[..i]] + rest)[1..] == rest;
      assert s == s[..i] + [c] + s[i + 1..];
      [s[..i]] + rest
  }

  /** Splitting undoes joining when no piece holds the separator. */
  lemma {:induction false} SplitOfJoin(xs: seq<string>, c: char)
    requires xs != []
    requires forall k :: 0 <= k < |xs| ==> c !in xs[k]
    ensures Split(Join(xs, [c]), c) == xs
  {
    var s := Join(xs, [c]);
    if |xs| == 1 {
      assert IndexOfChar(s, c) == |s|;
    } else {
      var rest := Join(xs[1..], [c]);
      assert s == xs[0] + [c] + rest;
      assert s[|xs[0]|] == c;
      assert forall k :: 0 <= k < |xs[0]| ==> s[k] == xs[0][k];
      assert IndexOfChar(s, c) == |xs[0]|;
      assert s[..|xs[0]|] == xs[0];
      assert s[|xs[0]| + 1..] == rest;
      SplitOfJoin(xs[1..], c);
      assert [xs[0]] + xs[1..] == xs;
    }
  }

  /** `s.split(c, 1)[1]` when the separator occurs. */
  function AfterFirst(s: string, c: char): (r: Option<string>)
    ensures r.Some? <==> c in s
    ensures r.Some? ==> exists i :: 0 <= i < |s| && s[i] == c && c !in s[..i] && r.value == s[i + 1..]
  {
    var i := IndexOfChar(s, c);
    if i == |s| then None
    else
      assert c !in s[..i];
      Some(s[i + 1..])
  }

  /** `s.split(c)[0]`. */
  function BeforeFirst(s: string, c: char): (r: string)
    ensures r == Split(s, c)[0]
    ensures Contains(s, r) || r == []
    ensures StartsWith(s, r) && c !in r
  {
    s[..IndexOfChar(s, c)]
  }

  lemma BeforeFirstAbsent(s: string, c: char)
    requires c !in s
    ensures BeforeFirst(s, c) == s
  {
  }

  /** Line boundaries of Python's `str.splitlines()`. */
  predicate IsLineBreak(c: char) {
    c == '\n' || c == '\r' || c == '\U{0B}' || c == '\U{0C}'
    || ('\U{1C}' <= c <= '\U{1E}') || c == '\U{85}' || c == '\U{2028}' || c == '\U{2029}'
  }

  function FirstLineBreak(s: string): (r: nat)
    ensures r <= |s|
    ensures r < |s| ==> IsLineBreak(s[r])
    ensures forall k :: 0 <= k < r ==> !IsLineBreak(s[k])
  {
    if s == [] then 0 else if IsLineBreak(s[0]) then 0 else 1 + FirstLineBreak(s[1..])
  }

  /** `s.splitlines()`: `\r\n` is one boundary, a trailing boundary makes no
      extra empty line, and no line contains a boundary character. */
  function SplitLines(s: string): (r: seq<string>)
    decreases |s|
    ensures s == [] <==> r == []
    ensures forall k :: 0 <= k < |r| ==> forall j :: 0 <= j < |r[k]| ==> !IsLineBreak(r[k][j])
  {
    if s == [] then []
    else
      var i := FirstLineBreak(s);
      if i == |s| then [s]
      else
        var skip := if s[i] == '\r' && i + 1 < |s| && s[i + 1] == '\n' then 2 else 1;
        [s[..i]] + SplitLines(s[i + skip..])
  }

  /** `line.rstrip("\n")` of a line `splitlines()` gave keeps the line:
      no such line ends in a line feed. */
  lemma SplitLinesRStripNewline(s: string)
    ensures forall k :: 0 <= k < |SplitLines(s)| ==> RStrip(SplitLines(s)[k], Some({'\n'})) == SplitLines(s)[k]
  {
    var ls := SplitLines(s);
    forall k | 0 <= k < |ls|
      ensures RStrip(ls[k], Some({'\n'})) == ls[k]
    {
      var l := ls[k];
      if l != [] {
        assert !IsLineBreak(l[|l| - 1]);
      }
      assert SkipBackward(l, 0, |l|, Some({'\n'})) == |l|;
    }
  }

  /** Text that uses `\n` as its only line boundary. */
  predicate OnlyNewlineBreaks(s: string) {
    forall k :: 0 <= k < |s| ==> IsLineBreak(s[k]) ==> s[k] == '\n'
  }

  /** The pieces without a final empty one. */
  function DropEmptyLast(p: seq<string>): (r: seq<string>)
    requires p != []
  {
    if p[|p| - 1] == [] then p[..|p| - 1] else p
  }

  lemma DropEmptyLastCons(x: string, q: seq<string>)
    requires q != []
    ensures DropEmptyLast([x] + q) == [x] + DropEmptyLast(q)
  {
    var p := [x] + q;
    assert p[|p| - 1] == q[|q| - 1];
    assert p[..|p| - 1] == [x] + q[..|q| - 1];
  }

  /** For text whose only boundaries are `\n`, `splitlines` agrees with
      `split("\n")` apart from the last piece that a final `\n` leaves empty. */
  lemma {:induction false} SplitLinesOfJoin(s: string)
    requires OnlyNewlineBreaks(s) && s != []
    ensures SplitLines(s) == DropEmptyLast(Split(s, '\n'))
  {
    var i := FirstLineBreak(s);
    assert IndexOfChar(s, '\n') == i by {
      var j := IndexOfChar(s, '\n');
      assert j < |s| ==> IsLineBreak(s[j]);
      assert i < |s| ==> s[i] == '\n';
    }
    if i < |s| {
      var rest := s[i + 1..];
      assert SplitLines(s) == [s[..i]] + SplitLines(rest);
      assert Split(s, '\n') == [s[..i]] + Split(rest, '\n');
      DropEmptyLastCons(s[..i], Split(rest, '\n'));
      if rest != [] {
        assert OnlyNewlineBreaks(rest) by {
          forall k | 0 <= k < |rest| ensures IsLineBreak(rest[k]) ==> rest[k] == '\n' {
            assert rest[k] == s[i + 1 + k];
          }
        }
        SplitLinesOfJoin(rest);
      } else {
        assert Split(rest, '\n') == [""];
      }
    } else {
      assert Split(s, '\n') == [s];
    }
  }

  /** Python `c.lower()` on ASCII letters; other characters are unchanged. */
  function LowerChar(c: char): (r: char)
    ensures 'A' <= c <= 'Z' ==> 'a' <= r <= 'z'
    ensures !('A' <= c <= 'Z') ==> r == c
  {
    if 'A' <= c <= 'Z' then (c as int + 32) as char else c
  }

  /** `s.lower()`, ASCII letters only. */
  function Lower(s: string): (r: string)
    ensures |r| == |s|
    ensures forall k :: 0 <= k < |s| ==> r[k] == LowerChar(s[k])
  {
    if s == [] then [] else [LowerChar(s[0])] + Lower(s[1..])
  }

  /** Lower-casing twice is lower-casing once. */
  lemma {:induction false} LowerIdempotent(s: string)
    ensures Lower(Lower(s)) == Lower(s)
  {
    if s != [] {
      LowerIdempotent(s[1..]);
    }
  }

  predicate IsDigit(c: char) {
    '0' <= c <= '9'
  }

  predicate AllDigits(s: string) {
    forall k :: 0 <= k < |s| ==> IsDigit(s[k])
  }

  /** The end of the run of ASCII digits that starts at `i`: what a greedy
      `\d+` takes. */
  function DigitEnd(s: string, i: nat): (r: nat)
    requires i <= |s|
    decreases |s| - i
    ensures i <= r <= |s|
    ensures forall k :: i <= k < r ==> IsDigit(s[k])
    ensures r < |s| ==> !IsDigit(s[r])
  {
    if i < |s| && IsDigit(s[i]) then DigitEnd(s, i + 1) else i
  }

  /** The value of a run of decimal digits. */
  function DigitsValue(s: string): (r: nat)
    requires AllDigits(s)
    decreases |s|
  {
    if s == [] then 0
    else DigitsValue(s[..|s| - 1]) * 10 + (s[|s| - 1] as int - '0' as int)
  }

  /** `str(n)` of a natural number. */
  function NatToString(n: nat): (r: string)
    ensures r != [] && AllDigits(r)
    ensures DigitsValue(r) == n
    ensures |r| > 1 ==> r[0] != '0'
  {
    var d := [('0' as int + n % 10) as char];
    if n < 10 then d
    else
      var p := NatToString(n / 10);
      assert (p + d)[..|p + d| - 1] == p;
      p + d
  }

  /** `str(i)` of an integer. */
  function IntToString(i: int): (r: string)
    ensures r != []
    ensures i >= 0 ==> r == NatToString(i)
    ensures i < 0 ==> r == "-" + NatToString(-i)
  {
    if i >= 0 then NatToString(i) else "-" + NatToString(-i)
  }

  /** The text `int()` accepts once stripped: at least one digit, after an
      optional `-` or `+`. */
  predicate IntLiteral(t: string) {
    if t != [] && (t[0] == '-' || t[0] == '+') then |t| > 1 && AllDigits(t[1..])
    else t != [] && AllDigits(t)
  }

  /** Python `int(s)` on ASCII text: surrounding whitespace, an optional sign,
      then at least one digit; anything else raises (None). */
  function ParseInt(s: string): (r: Option<int>)
    ensures r.Some? <==> IntLiteral(Strip(s))
    ensures var t := Strip(s);
      r.Some? ==> r.value == (if t[0] == '-' then -(DigitsValue(t[1..]) as int)
                              else if t[0] == '+' then DigitsValue(t[1..]) as int
                              else DigitsValue(t) as int)
  {
    var t := Strip(s);
    if t == [] then None
    else if t[0] == '-' || t[0] == '+' then
      var u := t[1..];
      if u != [] && AllDigits(u) then Some(if t[0] == '-' then -(DigitsValue(u) as int) else DigitsValue(u)) else None
    else if AllDigits(t) then Some(DigitsValue(t))
    else None
  }

  lemma ParseIntOfNatToString(n: nat)
    ensures ParseInt(NatToString(n)) == Some(n)
  {
    var s := NatToString(n);
    assert IsDigit(s[0]) && IsDigit(s[|s| - 1]);
    assert SkipForward(s, 0, None) == 0;
    assert SkipBackward(s, 0, |s|, None) == |s|;
    assert Strip(s) == s;
    assert s[0] != '-' && s[0] != '+';
  }

  /** `int(str(i)) == i` for every integer, negative ones included. */
  lemma ParseIntOfIntToString(i: int)
    ensures ParseInt(IntToString(i)) == Some(i)
  {
    if i >= 0 {
      ParseIntOfNatToString(i);
    } else {
      var d := NatToString(-i);
      var s := "-" + d;
      assert s[1..] == d;
      assert IsDigit(s[|s| - 1]);
      assert SkipForward(s, 0, None) == 0;
      assert SkipBackward(s, 0, |s|, None) == |s|;
      assert Strip(s) == s;
    }
  }

  /** `f"{i:5d}"`: right-aligned in a field of at least `width` characters. */
  function PadLeft(s: string, width: nat): (r: string)
    ensures |r| == if |s| >= width then |s| else width
    ensures EndsWith(r, s)
    ensures forall k :: 0 <= k < |r| - |s| ==> r[k] == ' '
  {
    if |s| >= width then s else seq(width - |s|, _ => ' ') + s
  }
}
