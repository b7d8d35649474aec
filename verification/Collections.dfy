/** The few helpers the models share. */
module Collections {

  datatype Option<+T> = None | Some(value: T) {
    function GetOr(default: T): T {
      match this
      case Some(v) => v
      case None => default
    }
  }

  function Map<T, U>(f: T -> U, s: seq<T>): (mapped: seq<U>)
    ensures |mapped| == |s| && forall i :: 0 <= i < |s| ==> mapped[i] == f(s[i])
  {
    seq(|s|, i requires 0 <= i < |s| => f(s[i]))
  }

  function Max(a: real, b: real): real { if a >= b then a else b }

  function Min(a: real, b: real): real { if a <= b then a else b }

  /** The largest whole number a JavaScript number represents safely: what an unknown cost or distance is
      compared as. */
  const MAX_SAFE_INTEGER := 9007199254740991.0
}
