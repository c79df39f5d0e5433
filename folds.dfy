/** The shape shared by the loops of revise_block over its hunks and of
    revise_patch over its blocks: each piece is repaired in order, the first
    exception ends the loop, and the loop is fixed when any piece was. */
module Folds {
  import opened Results

  /** The outputs of `f` on `xs` in order, and whether any reported a fix;
      the first error wins. */
  function FoldFixes<X, Y>(xs: seq<X>, f: X -> Result<(Y, bool)>): (r: Result<(seq<Y>, bool)>)
    ensures r.Ok? ==> |r.value.0| == |xs|
    decreases |xs|
  {
    if xs == [] then Ok(([], false))
    else match FoldFixes(xs[..|xs| - 1], f)
      case Err(e) => Err(e)
      case Ok((ys, b)) =>
        match f(xs[|xs| - 1])
        case Err(e) => Err(e)
        case Ok((y, c)) => Ok((ys + [y], b || c))
  }

  /** The fold over one more piece. */
  lemma FoldFixesSnoc<X, Y>(xs: seq<X>, x: X, f: X -> Result<(Y, bool)>)
    ensures FoldFixes(xs + [x], f) ==
      match FoldFixes(xs, f)
      case Err(e) => Err(e)
      case Ok((ys, b)) =>
        match f(x)
        case Err(e) => Err(e)
        case Ok((y, c)) => Ok((ys + [y], b || c))
  {
    assert (xs + [x])[..|xs|] == xs;
  }

  /** One more piece that succeeds extends the outputs. */
  lemma FoldFixesSnocOk<X, Y>(xs: seq<X>, x: X, f: X -> Result<(Y, bool)>, ys: seq<Y>, b: bool, y: Y, c: bool)
    requires FoldFixes(xs, f) == Ok((ys, b)) && f(x) == Ok((y, c))
    ensures FoldFixes(xs + [x], f) == Ok((ys + [y], b || c))
  {
    FoldFixesSnoc(xs, x, f);
  }

  /** One more piece that fails makes the fold fail. */
  lemma FoldFixesSnocErr<X, Y>(xs: seq<X>, x: X, f: X -> Result<(Y, bool)>)
    requires FoldFixes(xs, f).Ok? && f(x).Err?
    ensures FoldFixes(xs + [x], f) == Err(f(x).why)
  {
    FoldFixesSnoc(xs, x, f);
  }

  /** Once a piece fails, later pieces change nothing. */
  lemma {:induction false} FoldFixesErrStays<X, Y>(xs: seq<X>, more: seq<X>, f: X -> Result<(Y, bool)>)
    requires xs <= more && FoldFixes(xs, f).Err?
    ensures FoldFixes(more, f) == FoldFixes(xs, f)
    decreases |more|
  {
    if |more| > |xs| {
      var init := more[..|more| - 1];
      assert xs <= init;
      FoldFixesErrStays(xs, init, f);
      FoldFixesSnoc(init, more[|more| - 1], f);
      assert init + [more[|more| - 1]] == more;
    } else {
      assert more == xs;
    }
  }

  /** The fold succeeds exactly when every piece does; then its outputs are
      the pieces' outputs in order, and it reports a fix exactly when some
      piece does. */
  lemma {:induction false} FoldFixesSpec<X, Y>(xs: seq<X>, f: X -> Result<(Y, bool)>)
    ensures var r := FoldFixes(xs, f);
      (r.Ok? <==> forall i :: 0 <= i < |xs| ==> f(xs[i]).Ok?)
      && (r.Ok? ==>
            (forall i :: 0 <= i < |xs| ==> r.value.0[i] == f(xs[i]).value.0)
            && (r.value.1 <==> exists i :: 0 <= i < |xs| && f(xs[i]).value.1))
    decreases |xs|
  {
    if xs != [] {
      var init := xs[..|xs| - 1];
      FoldFixesSpec(init, f);
      assert forall i :: 0 <= i < |init| ==> init[i] == xs[i];
    }
  }
}
