/** Small shared vocabulary: optional values, minima and maxima, ASCII text. */
module Prelude {
  datatype Option<+T> = None | Some(value: T) {
    function GetOr(default: T): T {
      match this
      case Some(v) => v
      case None => default
    }
  }

  type Positive = r: real | r > 0.0 witness 1.0

  function MinR(a: real, b: real): real { if a < b then a else b }

  function MaxR(a: real, b: real): real { if a < b then b else a }

  /** Some element of a set, in no particular order. */
  method AnyOf<T>(s: set<T>) returns (x: T)
    requires s != {}
    ensures x in s
  {
    x :| x in s;
  }
}
