/** Option and Result: JavaScript's `undefined` and thrown errors, as values. */
module Wrappers {

  datatype Option<+T> = None | Some(value: T) {
    /** `x ?? d` */
    function GetOr(default: T): T {
      match this
      case Some(v) => v
      case None => default
    }
  }

  datatype Result<+T> = Ok(value: T) | Err(error: string)

  /** `s[k]`, which is `undefined` past the end of the array. */
  function Nth<T>(s: seq<T>, k: nat): (r: Option<T>)
    ensures r.Some? <==> k < |s|
    ensures r.Some? ==> r.value == s[k]
  {
    if k < |s| then Some(s[k]) else None
  }
}
