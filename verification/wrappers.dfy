/** Option type used for the fail-open outcomes of the sync
    engine: a value that may be missing (no matching page, no kept clipping, a
    remote call that raised and was swallowed). */
module Wrappers {

  datatype Option<+T> = None | Some(value: T) {

    /** The value, or `default` when there is none. */
    function GetOr(default: T): T {
      match this
      case Some(v) => v
      case None => default
    }
  }

  /** Moves the position carried by an option `n` places to the right. */
  function Shift(o: Option<nat>, n: nat): (r: Option<nat>)
    ensures r.None? <==> o.None?
    ensures r.Some? ==> r.value == o.value + n
  {
    match o
    case None => None
    case Some(i) => Some(i + n)
  }
}
