/** Option and Result: the model's stand-ins for Go's nil pointers and
    `(value, error)` return pairs. */
module Wrappers {

  datatype Option<+T> = None | Some(value: T) {
    function GetOr(default: T): T {
      match this
      case Some(v) => v
      case None => default
    }
  }

  /** A Go `(T, error)` pair where exactly one side is meaningful; the error is its message. */
  datatype Result<+T> = Ok(value: T) | Err(error: string)
}

/** First-match search, the model of an ORM `First` query over rows kept in
    primary-key order. */
module Lookup {
  import opened Wrappers

  function First<T>(s: seq<T>, p: T -> bool): (r: Option<nat>)
    ensures r.Some? ==> r.value < |s| && p(s[r.value])
    ensures r.Some? ==> forall j :: 0 <= j < r.value ==> !p(s[j])
    ensures r.None? <==> forall j :: 0 <= j < |s| ==> !p(s[j])
    decreases |s|
  {
    if |s| == 0 then None
    else if p(s[0]) then Some(0)
    else
      match First(s[1..], p)
      case None => None
      case Some(k) => Some(k + 1)
  }
}
