/** Optional values and results with an error, used where the note organizer
    either finds nothing (a missing notes file) or raises an exception (a
    stored record that `Note(**item)` refuses). */
module Outcomes {

  datatype Option<+T> = None | Some(value: T)

  datatype Result<+T, +E> = Ok(value: T) | Err(error: E)

  /** Element `i` is the first that `f` refuses, with error `e`. */
  ghost predicate FirstFailure<A, C, B, E>(xs: seq<A>, cs: seq<C>, f: (A, C) -> Result<B, E>, i: int, e: E)
    requires |cs| == |xs|
  {
    && 0 <= i < |xs|
    && f(xs[i], cs[i]) == Err(e)
    && forall j :: 0 <= j < i ==> f(xs[j], cs[j]).Ok?
  }

  /** Applies `f` to each element and its companion in order, stopping at the
      first error, the way a Python loop stops at the first exception. */
  function MapAll<A, C, B, E>(xs: seq<A>, cs: seq<C>, f: (A, C) -> Result<B, E>): (r: Result<seq<B>, E>)
    requires |cs| == |xs|
    ensures r.Ok? <==> forall i :: 0 <= i < |xs| ==> f(xs[i], cs[i]).Ok?
    ensures r.Ok? ==> |r.value| == |xs|
    ensures r.Ok? ==> forall i :: 0 <= i < |xs| ==> f(xs[i], cs[i]) == Ok(r.value[i])
    ensures r.Err? ==> exists i :: FirstFailure(xs, cs, f, i, r.error)
    decreases |xs|
  {
    if xs == [] then Ok([])
    else
      match f(xs[0], cs[0])
      case Err(e) =>
        assert FirstFailure(xs, cs, f, 0, e);
        Err(e)
      case Ok(y) =>
        match MapAll(xs[1..], cs[1..], f)
        case Err(e) =>
          assert exists k :: FirstFailure(xs, cs, f, k, e) by {
            var i :| FirstFailure(xs[1..], cs[1..], f, i, e);
            assert forall j :: 1 <= j <= i + 1 ==> xs[1..][j - 1] == xs[j] && cs[1..][j - 1] == cs[j];
            assert FirstFailure(xs, cs, f, i + 1, e);
          }
          Err(e)
        case Ok(rest) =>
          assert forall i :: 1 <= i < |xs| ==> xs[1..][i - 1] == xs[i] && cs[1..][i - 1] == cs[i];
          Ok([y] + rest)
  }
}
