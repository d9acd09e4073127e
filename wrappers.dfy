/** Option and Result datatypes, and a sequence fact, shared by the modules of the model. */
module Wrappers {

  /** A value that may be absent: SQL NULL, a JavaScript `undefined`, or NaN where a number is parsed. */
  datatype Option<+T> = None | Some(value: T) {
    function GetOr(default: T): T {
      match this
      case Some(v) => v
      case None => default
    }
  }

  /** The outcome of an operation that may throw: `Err` carries what was thrown. */
  datatype Result<+T, +E> = Ok(value: T) | Err(error: E)

  /** A prefix grows by the next element. */
  lemma PrefixSnoc<T>(s: seq<T>, n: nat)
    requires n < |s|
    ensures s[..n + 1] == s[..n] + [s[n]]
  {
  }
}
