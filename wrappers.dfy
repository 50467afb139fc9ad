/** Optional values and fallible results, used where the TypeScript code has
    `undefined`/`null` fields and thrown errors. */
module Wrappers {

  /** A value that may be absent (`undefined` or `null` in the source). */
  datatype Option<+T> = None | Some(value: T) {
    /** The value, or `default` when absent (the source's `?? default`). */
    function GetOr(default: T): T {
      match this
      case Some(v) => v
      case None => default
    }
  }

  /** The outcome of an operation that may throw: `Failure` carries the message. */
  datatype Result<+T> = Success(value: T) | Failure(error: string)

  /** `xs.map(f)` with an `f` that may throw: every element is read in order,
      and the first failure is the result. */
  function MapAll<A, B>(xs: seq<A>, f: A -> Result<B>): (r: Result<seq<B>>)
    ensures r.Success? ==> |r.value| == |xs| && forall i :: 0 <= i < |xs| ==> f(xs[i]) == Success(r.value[i])
    ensures r.Failure? ==> exists i :: 0 <= i < |xs| && f(xs[i]) == Failure(r.error) &&
                                       forall j :: 0 <= j < i ==> f(xs[j]).Success?
  {
    if xs == [] then Success([])
    else
      match f(xs[0])
      case Failure(err) => Failure(err)
      case Success(y) =>
        assert forall i :: 1 <= i < |xs| ==> xs[i] == xs[1..][i - 1];
        match MapAll(xs[1..], f)
        case Failure(err) => Failure(err)
        case Success(rest) => Success([y] + rest)
  }
}
