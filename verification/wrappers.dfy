/** Optional values and results, usable with `:-` in expressions and statements. */
module Wrappers {

  /** A value that may be absent: JavaScript's `undefined` (or JSON `null`). */
  datatype Option<+T> = None | Some(value: T) {

    predicate IsFailure() {
      None?
    }

    function PropagateFailure<U>(): Option<U>
      requires None?
    {
      None
    }

    function Extract(): T
      requires Some?
    {
      value
    }

    function GetOr(default: T): T {
      match this
      case Some(v) => v
      case None => default
    }
  }

  /** The settled value of a promise: resolved with a value or rejected with an error. */
  datatype Result<+R, +E> = Success(value: R) | Failure(error: E) {

    predicate IsFailure() {
      Failure?
    }

    function PropagateFailure<U>(): Result<U, E>
      requires Failure?
    {
      Failure(error)
    }

    function Extract(): R
      requires Success?
    {
      value
    }
  }

  /** The last present value of `xs`, if any. */
  function LastPresent<T(==)>(xs: seq<Option<T>>): (r: Option<T>)
    ensures r.None? <==> forall i :: 0 <= i < |xs| ==> xs[i].None?
    ensures r.Some? ==> exists i :: IsLastPresent(xs, i) && xs[i] == r
    decreases |xs|
  {
    if |xs| == 0 then None
    else if xs[|xs| - 1].Some? then
      assert IsLastPresent(xs, |xs| - 1);
      xs[|xs| - 1]
    else
      var prefix := xs[..|xs| - 1];
      var r := LastPresent(prefix);
      if r.Some? then
        var i :| IsLastPresent(prefix, i) && prefix[i] == r;
        assert IsLastPresent(xs, i);
        r
      else
        r
  }

  /** `xs[i]` is present and nothing after it is. */
  predicate IsLastPresent<T>(xs: seq<Option<T>>, i: int) {
    0 <= i < |xs| && xs[i].Some? && forall j :: i < j < |xs| ==> xs[j].None?
  }
}
