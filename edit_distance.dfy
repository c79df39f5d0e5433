/** The edit distance the backporter takes from the `Levenshtein` package:
    the least number of single-character insertions, deletions and
    substitutions turning one string into the other. */
module EditDistance {

  function Min3(x: nat, y: nat, z: nat): (r: nat)
    ensures r <= x && r <= y && r <= z
    ensures r == x || r == y || r == z
  {
    if x <= y && x <= z then x else if y <= z then y else z
  }

  /** Levenshtein distance: drop the first character of `a` (deletion), of
      `b` (insertion), or of both (a match, or a substitution). */
  function Lev(a: string, b: string): nat
    decreases |a| + |b|
  {
    if a == [] then |b|
    else if b == [] then |a|
    else Min3(Lev(a[1..], b) + 1, Lev(a, b[1..]) + 1,
              Lev(a[1..], b[1..]) + (if a[0] == b[0] then 0 else 1))
  }

  lemma {:induction false} LevSelf(a: string)
    ensures Lev(a, a) == 0
  {
    if a != [] {
      LevSelf(a[1..]);
    }
  }

  /** The unequal lengths alone force at least `||a| - |b||` edits. */
  lemma {:induction false} LevLowerBound(a: string, b: string)
    decreases |a| + |b|
    ensures Lev(a, b) >= |a| - |b| && Lev(a, b) >= |b| - |a|
  {
    if a != [] && b != [] {
      LevLowerBound(a[1..], b);
      LevLowerBound(a, b[1..]);
      LevLowerBound(a[1..], b[1..]);
    }
  }

  /** Substituting position by position and then inserting or deleting the
      rest never takes more than the longer length. */
  lemma {:induction false} LevUpperBound(a: string, b: string)
    decreases |a| + |b|
    ensures Lev(a, b) <= if |a| >= |b| then |a| else |b|
  {
    if a != [] && b != [] {
      LevUpperBound(a[1..], b[1..]);
    }
  }

  /** Distance zero means equal strings, and equal strings are at distance zero. */
  lemma {:induction false} LevZeroIff(a: string, b: string)
    decreases |a| + |b|
    ensures Lev(a, b) == 0 <==> a == b
  {
    if a == b {
      LevSelf(a);
    } else if a != [] && b != [] {
      assert a == [a[0]] + a[1..] && b == [b[0]] + b[1..];
      LevZeroIff(a[1..], b[1..]);
    }
  }

  lemma {:induction false} LevSymmetric(a: string, b: string)
    decreases |a| + |b|
    ensures Lev(a, b) == Lev(b, a)
  {
    if a != [] && b != [] {
      LevSymmetric(a[1..], b);
      LevSymmetric(a, b[1..]);
      LevSymmetric(a[1..], b[1..]);
    }
  }
}
