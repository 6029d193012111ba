// Optional values and results used for the error paths of the solvers:
// a Python exception (ValueError, KeyError, IndexError, a failed assert)
// becomes `None` or `Err`.
module Wrappers {
  datatype Option<T> = None | Some(value: T)

  datatype Result<T> = Ok(value: T) | Err(msg: string)

  /** All the values when every entry has one (`list(map(f, xs))` with a raising `f`). */
  function AllSome<T>(xs: seq<Option<T>>): (r: Option<seq<T>>)
    ensures r.Some? <==> forall i :: 0 <= i < |xs| ==> xs[i].Some?
    ensures r.Some? ==> |r.value| == |xs| && forall i :: 0 <= i < |xs| ==> xs[i].value == r.value[i]
  {
    if |xs| == 0 then Some([])
    else
      var tail := AllSome(xs[1..]);
      if xs[0].Some? && tail.Some? then Some([xs[0].value] + tail.value) else None
  }
}
